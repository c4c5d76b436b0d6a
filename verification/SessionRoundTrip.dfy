/** Printing a sessionState and extracting it again. */
module SessionRoundTrip {
  import opened Prelude
  import opened TextStreams
  import opened SessionFormat

  lemma MdRoundTrip(md: MethodDescriptor, was: MethodDescriptor, more: seq<Token>, tail: string)
    requires CleanMd(md) && IsShort(md.whichMethod)
    ensures ReadMd(Fresh(Text(MdTokens(md) + more, tail)), was) == (Fresh(Text(more, tail)), md)
  {
    hide GetBool, GetInt, GetLine, SkipNewline, Text, Decimal, MdType;
    var ts := MdTokens(md) + more;
    TakeLine(ts, tail, "", '\n');
    TakeBool(ts[1..], tail, md.isStatic, was.isStatic);
    assert ts[1..][1..] == ts[2..];
    TakeInt(ts[2..], tail, md.whichMethod, 0, -0x8000, 0x7FFF);
    assert ts[2..][1..] == ts[3..];
    TakeLine(ts[3..], tail, was.fullMethodName, '\n');
    assert ts[3..][1..] == ts[4..];
    TakeLine(ts[4..], tail, was.descriptor, '\n');
    assert ts[4..][1..] == more;
  }

  lemma MdcRoundTrip(m: MethodDescriptorCmd, was: MethodDescriptorCmd, more: seq<Token>, tail: string)
    requires CleanMdc(m) && IsShort(m.base.whichMethod)
    ensures ReadMdc(Fresh(Text(MdcTokens(m) + more, tail)), was) == (Fresh(Text(more, tail)), m)
  {
    hide GetLine, Text, ReadMd, MdTokens, MdcType;
    var ts := MdcTokens(m) + more;
    var strings := [Line(m.command), Line(m.jvmOptions)];
    TakeLine(ts, tail, "", '\n');
    assert ts[1..] == MdTokens(m.base) + (strings + more);
    MdRoundTrip(m.base, was.base, strings + more, tail);
    TakeLine(strings + more, tail, was.command, '\n');
    assert (strings + more)[1..] == [Line(m.jvmOptions)] + more;
    TakeLine([Line(m.jvmOptions)] + more, tail, was.jvmOptions, '\n');
    assert ([Line(m.jvmOptions)] + more)[1..] == more;
  }

  lemma {:induction false} CmdsRoundTrip(v: seq<MethodDescriptorCmd>, t: MethodDescriptorCmd, more: seq<Token>,
      tail: string)
    requires CleanCmds(v) && FitsCmds(v)
    ensures ReadCmds(Fresh(Text(CmdElementTokens(v) + more, tail)), |v|, t) == (Fresh(Text(more, tail)), v)
    decreases |v|
  {
    hide Text, ReadMdc, MdcTokens, SkipNewline;
    if v == [] {
      assert CmdElementTokens(v) + more == more;
    } else {
      var behind := CmdElementTokens(v[1..]) + more;
      assert CmdElementTokens(v) + more == MdcTokens(v[0]) + ([BLANK] + behind);
      MdcRoundTrip(v[0], t, [BLANK] + behind, tail);
      TakeBlank([BLANK] + behind, tail);
      assert ([BLANK] + behind)[1..] == behind;
      CmdsRoundTrip(v[1..], MovedFrom(v[0]), more, tail);
      assert [v[0]] + v[1..] == v;
    }
  }

  lemma {:induction false} PropsRoundTrip(v: seq<string>, more: seq<Token>, tail: string)
    requires CleanProps(v)
    ensures ReadProps(Fresh(Text(PropElementTokens(v) + more, tail)), |v|) == (Fresh(Text(more, tail)), v)
    decreases |v|
  {
    hide Text, GetLine;
    if v == [] {
      assert PropElementTokens(v) + more == more;
    } else {
      var behind := PropElementTokens(v[1..]) + more;
      assert PropElementTokens(v) + more == [Token(v[0], '\r')] + behind;
      TakeLine([Token(v[0], '\r')] + behind, tail, "", '\r');
      assert ([Token(v[0], '\r')] + behind)[1..] == behind;
      PropsRoundTrip(v[1..], more, tail);
      assert [v[0]] + v[1..] == v;
    }
  }

  lemma CountRoundTrip(typeName: string, n: nat, more: seq<Token>, tail: string)
    requires '\n' !in typeName && n <= SIZE_MAX
    ensures ReadCount(Fresh(Text([Line(typeName), Line(Decimal(n))] + more, tail))) == (Fresh(Text(more, tail)), n)
  {
    hide Text, GetLine, GetSize, SkipNewline, Decimal;
    var ts := [Line(typeName), Line(Decimal(n))] + more;
    TakeLine(ts, tail, "", '\n');
    TakeSize(ts[1..], tail, n, 0);
    assert ts[1..][1..] == more;
  }

  /** What extraction leaves where a vector was: an empty or absent vector prints as count 0 and is not assigned. */
  function Kept<T>(was: Option<seq<T>>, v: Option<seq<T>>): Option<seq<T>> {
    if Elements(v) == [] then was else v
  }

  lemma CmdVecRoundTrip(v: Option<seq<MethodDescriptorCmd>>, was: Option<seq<MethodDescriptorCmd>>, more: seq<Token>,
      tail: string)
    requires CleanCmds(Elements(v)) && FitsCmds(Elements(v))
    ensures ReadCmdVec(Fresh(Text(CmdVecTokens(v) + more, tail)), was) == (Fresh(Text(more, tail)), Kept(was, v))
  {
    hide Text, ReadCount, ReadCmds, SkipNewline, CmdElementTokens, Decimal, CmdVecType;
    var e := Elements(v);
    var behind := CmdElementTokens(e) + ([BLANK] + more);
    assert CmdVecTokens(v) + more == [Line(CmdVecType()), Line(Decimal(|e|))] + behind;
    CountRoundTrip(CmdVecType(), |e|, behind, tail);
    CmdsRoundTrip(e, NO_COMMAND, [BLANK] + more, tail);
    CmdsNone(e, [BLANK] + more);
    TakeBlank([BLANK] + more, tail);
    assert ([BLANK] + more)[1..] == more;
  }

  lemma CmdsNone(v: seq<MethodDescriptorCmd>, more: seq<Token>)
    ensures v == [] ==> CmdElementTokens(v) + more == more
  {
  }

  lemma PropsNone(v: seq<string>, more: seq<Token>)
    ensures v == [] ==> PropElementTokens(v) + more == more
  {
  }

  lemma PropVecRoundTrip(v: Option<seq<string>>, was: Option<seq<string>>, more: seq<Token>, tail: string)
    requires CleanProps(Elements(v)) && |Elements(v)| <= SIZE_MAX
    ensures ReadPropVec(Fresh(Text(PropVecTokens(v) + more, tail)), was) == (Fresh(Text(more, tail)), Kept(was, v))
  {
    hide Text, ReadCount, ReadProps, SkipNewline, PropElementTokens, Decimal, StrVecType;
    var e := Elements(v);
    var behind := PropElementTokens(e) + ([BLANK] + more);
    assert PropVecTokens(v) + more == [Line(StrVecType()), Line(Decimal(|e|))] + behind;
    CountRoundTrip(StrVecType(), |e|, behind, tail);
    PropsRoundTrip(e, [BLANK] + more, tail);
    PropsNone(e, [BLANK] + more);
    TakeBlank([BLANK] + more, tail);
    assert ([BLANK] + more)[1..] == more;
  }

  lemma HeadRoundTrip(s: SessionInfo, was: SessionInfo, more: seq<Token>, tail: string)
    requires IsInt(s.supervisorPid) && IsShort(s.childProcessMaxCount)
    ensures ReadHead(Fresh(Text(HeadTokens(s) + more, tail)), was) ==
            (Fresh(Text(more, tail)), was.(supervisorPid := s.supervisorPid,
              childProcessMaxCount := s.childProcessMaxCount))
  {
    hide Text, GetLine, GetInt, SkipNewline, Decimal, SessionType;
    var ts := HeadTokens(s) + more;
    TakeLine(ts, tail, "", '\n');
    TakeInt(ts[1..], tail, s.supervisorPid, was.supervisorPid, -0x8000_0000, 0x7FFF_FFFF);
    assert ts[1..][1..] == ts[2..];
    TakeInt(ts[2..], tail, s.childProcessMaxCount, was.childProcessMaxCount, -0x8000, 0x7FFF);
    assert ts[2..][1..] == more;
  }

  lemma EntryRoundTrip(md: MethodDescriptor, was: MethodDescriptor, more: seq<Token>, tail: string)
    requires CleanMd(md) && IsShort(md.whichMethod)
    ensures ReadEntry(Fresh(Text(EntryTokens(md) + more, tail)), was) == (Fresh(Text(more, tail)), md)
  {
    hide Text, ReadMd, MdTokens, SkipNewline;
    assert EntryTokens(md) + more == MdTokens(md) + ([BLANK] + more);
    MdRoundTrip(md, was, [BLANK] + more, tail);
    TakeBlank([BLANK] + more, tail);
    assert ([BLANK] + more)[1..] == more;
  }

  lemma EntriesRoundTrip(s: SessionInfo, was: SessionInfo, more: seq<Token>, tail: string)
    requires CleanEntries(s) && FitsEntries(s)
    ensures ReadEntries(Fresh(Text(EntriesTokens(s) + more, tail)), was) ==
            (Fresh(Text(more, tail)),
             was.(mainEntry := s.mainEntry, getStatusEntry := s.getStatusEntry, shutdownEntry := s.shutdownEntry,
                  childNotifyEntry := s.childNotifyEntry, childCompletionEntry := s.childCompletionEntry,
                  supervisorEntry := s.supervisorEntry, childProcessorEntry := s.childProcessorEntry))
  {
    hide Text, ReadEntry, EntryTokens, CleanMd, IsShort;
    var t6 := EntryTokens(s.childProcessorEntry);
    var t5 := EntryTokens(s.supervisorEntry) + t6;
    var t4 := EntryTokens(s.childCompletionEntry) + t5;
    var t3 := EntryTokens(s.childNotifyEntry) + t4;
    var t2 := EntryTokens(s.shutdownEntry) + t3;
    var t1 := EntryTokens(s.getStatusEntry) + t2;
    Associate(EntryTokens(s.mainEntry), t1, more);
    EntryRoundTrip(s.mainEntry, was.mainEntry, t1 + more, tail);
    Associate(EntryTokens(s.getStatusEntry), t2, more);
    EntryRoundTrip(s.getStatusEntry, was.getStatusEntry, t2 + more, tail);
    Associate(EntryTokens(s.shutdownEntry), t3, more);
    EntryRoundTrip(s.shutdownEntry, was.shutdownEntry, t3 + more, tail);
    Associate(EntryTokens(s.childNotifyEntry), t4, more);
    EntryRoundTrip(s.childNotifyEntry, was.childNotifyEntry, t4 + more, tail);
    Associate(EntryTokens(s.childCompletionEntry), t5, more);
    EntryRoundTrip(s.childCompletionEntry, was.childCompletionEntry, t5 + more, tail);
    Associate(EntryTokens(s.supervisorEntry), t6, more);
    EntryRoundTrip(s.supervisorEntry, was.supervisorEntry, t6 + more, tail);
    EntryRoundTrip(s.childProcessorEntry, was.childProcessorEntry, more, tail);
  }

  lemma TwoLines(a: string, b: string, wasA: string, wasB: string, more: seq<Token>, tail: string)
    requires '\n' !in a && '\n' !in b
    ensures var i := GetLine(Fresh(Text([Line(a), Line(b)] + more, tail)), wasA, '\n');
            i.1 == a && GetLine(i.0, wasB, '\n') == (Fresh(Text(more, tail)), b)
  {
    hide Text, GetLine;
    var ts := [Line(a), Line(b)] + more;
    TakeLine(ts, tail, wasA, '\n');
    TakeLine(ts[1..], tail, wasB, '\n');
    assert ts[1..][1..] == more;
  }

  lemma VectorsRoundTrip(s: SessionInfo, was: SessionInfo, more: seq<Token>, tail: string)
    requires CleanVectors(s) && FitsVectors(s)
    ensures ReadVectors(Fresh(Text(VectorsTokens(s) + more, tail)), was) ==
            (Fresh(Text(more, tail)),
             was.(supervisorCmds := Kept(was.supervisorCmds, s.supervisorCmds),
               childCmds := Kept(was.childCmds, s.childCmds),
                  systemProperties := Kept(was.systemProperties, s.systemProperties)))
  {
    hide Text, ReadCmdVec, ReadPropVec, CmdVecTokens, PropVecTokens, SkipNewline, CleanCmds, CleanProps, FitsCmds,
         Kept, Elements;
    var t2 := [BLANK] + more;
    var t1 := [BLANK] + (PropVecTokens(s.systemProperties) + t2);
    var t0 := [BLANK] + (CmdVecTokens(s.childCmds) + t1);
    assert VectorsTokens(s) + more == CmdVecTokens(s.supervisorCmds) + t0;
    CmdVecRoundTrip(s.supervisorCmds, was.supervisorCmds, t0, tail);
    TakeBlank(t0, tail);
    assert t0[1..] == CmdVecTokens(s.childCmds) + t1;
    CmdVecRoundTrip(s.childCmds, was.childCmds, t1, tail);
    TakeBlank(t1, tail);
    assert t1[1..] == PropVecTokens(s.systemProperties) + t2;
    PropVecRoundTrip(s.systemProperties, was.systemProperties, t2, tail);
    TakeBlank(t2, tail);
    assert t2[1..] == more;
  }

  /** The printed session as it can be restored into an object that held was. */
  function Restored(was: SessionInfo, s: SessionInfo): SessionInfo {
    s.(supervisorCmds := Kept(was.supervisorCmds, s.supervisorCmds), childCmds := Kept(was.childCmds, s.childCmds),
       systemProperties := Kept(was.systemProperties, s.systemProperties))
  }

  lemma RoundTrip(s: SessionInfo, was: SessionInfo, tail: string)
    requires Clean(s) && Representable(s)
    ensures ReadSession(Fresh(Printed(s) + tail), was) == (Fresh(tail), Restored(was, s))
  {
    hide Text, ReadHead, ReadEntries, ReadVectors, GetLine, HeadTokens, EntriesTokens, VectorsTokens,
         CleanEntries, FitsEntries, CleanVectors, FitsVectors;
    var t4 := [Line(s.loggingLevel), Line(s.jvmlibPath)];
    var t3 := VectorsTokens(s) + t4;
    var t2 := [Line(s.childProcessorCommands), Line(s.systemClassPath)] + t3;
    var t1 := EntriesTokens(s) + t2;
    PrintedBefore(s, tail);
    HeadRoundTrip(s, was, t1, tail);
    var s0 := ReadHead(Fresh(Printed(s) + tail), was).1;
    EntriesRoundTrip(s, s0, t2, tail);
    var s1 := ReadEntries(Fresh(Text(t1, tail)), s0).1;
    TwoLines(s.childProcessorCommands, s.systemClassPath, s1.childProcessorCommands, s1.systemClassPath, t3, tail);
    var s2 := ReadSettings(Fresh(Text(t2, tail)), s1).1;
    VectorsRoundTrip(s, s2, t4, tail);
    var s3 := ReadVectors(Fresh(Text(t3, tail)), s2).1;
    TwoLines(s.loggingLevel, s.jvmlibPath, s3.loggingLevel, s3.jvmlibPath, [], tail);
    assert t4 + [] == t4;
    TextNone(tail);
  }

  lemma TextNone(tail: string)
    ensures Text([], tail) == tail
  {
  }

  lemma PrintedBefore(s: SessionInfo, tail: string)
    ensures Printed(s) + tail == Text(SessionTokens(s), tail)
  {
    TextAppend(SessionTokens(s), [], tail);
    assert SessionTokens(s) + [] == SessionTokens(s);
  }

  /**
   * A fresh object gets back every field if and only if no ordinary string holds a newline and no system property a
   * carriage return; then exactly the trailing input is left on a good stream.
   */
  lemma RestoredIff(s: SessionInfo, tail: string)
    requires Representable(s)
    ensures ReadSession(Fresh(Printed(s) + tail), FRESH).1 == Restored(FRESH, s) <==> Clean(s)
    ensures Clean(s) ==> ReadSession(Fresh(Printed(s) + tail), FRESH).0 == Fresh(tail)
  {
    hide ReadSession, Printed, CleanEntries, CleanStrings;
    if Clean(s) {
      RoundTrip(s, FRESH, tail);
    }
    FreshIsClean();
    CleanRestored(s);
    assert Clean(ReadSession(Fresh(Printed(s) + tail), FRESH).1);
  }

  lemma FreshIsClean()
    ensures Clean(FRESH)
  {
  }

  lemma CleanRestored(s: SessionInfo)
    ensures Clean(Restored(FRESH, s)) <==> Clean(s)
  {
  }

  // ---- streams that have failed

  /** What a failed stream makes of a descriptor: the short that is not read counts as 0. */
  function Unread(md: MethodDescriptor): MethodDescriptor {
    md.(whichMethod := 0)
  }

  lemma MdNothing(i: In, md: MethodDescriptor)
    requires i.eof || i.fail
    ensures ReadMd(i, md) == (In(i.rest, i.eof, true), Unread(md))
    ensures ReadEntry(i, md) == (In(i.rest, i.eof, true), Unread(md))
  {
  }

  /** The elements that are counted but not there: the first is what the reused element held, the others are empty. */
  lemma {:induction false} CmdsNothing(i: In, count: nat, t: MethodDescriptorCmd, k: nat)
    requires (i.eof || i.fail) && k < count
    ensures var m := ReadCmds(i, count, t).1[k];
            if k == 0 then m == t.(base := Unread(t.base))
            else m == MethodDescriptorCmd(MethodDescriptor(t.base.isStatic, 0, "", ""), "", "")
    decreases count
  {
    hide ReadMd;
    MdNothing(In(i.rest, i.eof, true), t.base);
    if k > 0 {
      var m := t.(base := Unread(t.base));
      CmdsNothing(In(i.rest, i.eof, true), count - 1, MovedFrom(m), k - 1);
    }
  }

  /** Extraction from a failed stream changes nothing of a session but the kinds of its entry points. */
  lemma NothingRead(i: In, s: SessionInfo)
    requires i.eof || i.fail
    ensures ReadSession(i, s) ==
            (In(i.rest, i.eof, true),
             s.(mainEntry := Unread(s.mainEntry), getStatusEntry := Unread(s.getStatusEntry),
                shutdownEntry := Unread(s.shutdownEntry), childNotifyEntry := Unread(s.childNotifyEntry),
                childCompletionEntry := Unread(s.childCompletionEntry), supervisorEntry := Unread(s.supervisorEntry),
                childProcessorEntry := Unread(s.childProcessorEntry)))
  {
    hide ReadEntry, Unread;
    var f := In(i.rest, i.eof, true);
    MdNothing(f, s.mainEntry);
    MdNothing(f, s.getStatusEntry);
    MdNothing(f, s.shutdownEntry);
    MdNothing(f, s.childNotifyEntry);
    MdNothing(f, s.childCompletionEntry);
    MdNothing(f, s.supervisorEntry);
    MdNothing(f, s.childProcessorEntry);
  }

  // ---- numbers out of range

  /**
   * A process id is an int and the number of children a short: what is too large is cut to it, and the stream fails.
   */
  lemma HeadClamps(typeName: string, pid: int, max: int, tail: string, was: SessionInfo)
    requires '\n' !in typeName
    ensures var (i, s) := ReadHead(Fresh(Text([Line(typeName), Line(Decimal(pid)), Line(Decimal(max))], tail)), was);
            var fits := -2147483648 <= pid <= 2147483647;
            && s.supervisorPid == (if pid < -2147483648 then -2147483648 else if pid > 2147483647 then 2147483647
               else pid)
            && s.childProcessMaxCount ==
               (if !fits then was.childProcessMaxCount
                else if max < -32768 then -32768 else if max > 32767 then 32767 else max)
            && (i.fail <==> !fits || max < -32768 || max > 32767)
  {
    hide GetInt, GetLine, Text, Decimal;
    var ts := [Line(typeName), Line(Decimal(pid)), Line(Decimal(max))];
    TakeLine(ts, tail, "", '\n');
    TakeAnyInt(ts[1..], tail, pid, was.supervisorPid, -0x8000_0000, 0x7FFF_FFFF);
    assert ts[1..][1..] == ts[2..];
    OnlyNewline(Text(ts[2..], tail));
    assert ("\n" + Text(ts[2..], tail))[1..] == Text(ts[2..], tail);
    TakeAnyInt(ts[2..], tail, max, was.childProcessMaxCount, -0x8000, 0x7FFF);
    var f := In("\n" + Text(ts[2..], tail), false, true);
    NothingGot(f, "", '\n', was.childProcessMaxCount, -0x8000, 0x7FFF, 0, false);
  }

  /** The kind of an entry point is a short. */
  lemma KindClamps(typeName: string, isStatic: bool, which: int, tail: string, was: MethodDescriptor)
    requires '\n' !in typeName
    ensures var (i, md) := ReadMd(Fresh(Text([Line(typeName), Line(BoolText(isStatic)), Line(Decimal(which))], tail)),
            was);
            && md.isStatic == isStatic
            && md.whichMethod == (if which < -32768 then -32768 else if which > 32767 then 32767 else which)
            && (which < -32768 || which > 32767 ==> i.fail)
  {
    hide GetInt, GetBool, GetLine, Text, Decimal;
    var ts := [Line(typeName), Line(BoolText(isStatic)), Line(Decimal(which))];
    TakeLine(ts, tail, "", '\n');
    TakeBool(ts[1..], tail, isStatic, was.isStatic);
    assert ts[1..][1..] == ts[2..];
    TakeAnyInt(ts[2..], tail, which, 0, -0x8000, 0x7FFF);
    var f := In("\n" + Text(ts[2..][1..], tail), false, true);
    NothingGot(f, was.fullMethodName, '\n', 0, 0, 0, 0, false);
    NothingGot(f, was.descriptor, '\n', 0, 0, 0, 0, false);
  }
}
