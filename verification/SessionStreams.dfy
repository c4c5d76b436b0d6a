/** The stream objects and the operators that print a sessionState onto one and assign one from another. */
module SessionStreams {
  import opened Prelude
  import opened TextStreams
  import opened SessionFormat

  class OStream {
    var text: string
    ghost var tokens: seq<Token>

    ghost predicate Valid()
      reads this
    {
      text == Text(tokens, [])
    }

    constructor ()
      ensures Valid() && tokens == []
    {
      text, tokens := "", [];
    }

    /** os << str << delim */
    method Put(str: string, delim: char)
      requires Valid()
      modifies this
      ensures Valid() && tokens == old(tokens) + [Token(str, delim)]
    {
      TextAppend(tokens, [Token(str, delim)], []);
      text := text + str;
      text := text + [delim];
      tokens := tokens + [Token(str, delim)];
    }

    method PutMd(md: MethodDescriptor)
      requires Valid()
      modifies this
      ensures Valid() && tokens == old(tokens) + MdTokens(md)
    {
      Put(MdType(), '\n');
      Put(BoolText(md.isStatic), '\n');
      Put(Decimal(md.whichMethod), '\n');
      Put(md.fullMethodName, '\n');
      Put(md.descriptor, '\n');
    }

    method PutMdc(m: MethodDescriptorCmd)
      requires Valid()
      modifies this
      ensures Valid() && tokens == old(tokens) + MdcTokens(m)
    {
      Put(MdcType(), '\n');
      PutMd(m.base);
      Put(m.command, '\n');
      Put(m.jvmOptions, '\n');
    }

    /** stream_vec_out for command descriptors: an absent vector prints a count of 0. */
    method PutCmdVec(v: Option<seq<MethodDescriptorCmd>>)
      requires Valid()
      modifies this
      ensures Valid() && tokens == old(tokens) + CmdVecTokens(v)
    {
      hide MdcTokens, Text, Decimal;
      Put(CmdVecType(), '\n');
      if v.Some? {
        Put(Decimal(|v.value|), '\n');
        PutCmds(v.value);
      } else {
        Put(Decimal(0), '\n');
        assert CmdElementTokens([]) == [];
      }
      Put("", '\n');
    }

    method PutCmds(self: seq<MethodDescriptorCmd>)
      requires Valid()
      modifies this
      ensures Valid() && tokens == old(tokens) + CmdElementTokens(self)
    {
      hide MdcTokens, Text;
      ghost var start := tokens;
      var k := 0;
      assert self[0..] == self;
      while k < |self|
        invariant 0 <= k <= |self| && Valid()
        invariant tokens + CmdElementTokens(self[k..]) == start + CmdElementTokens(self)
      {
        ghost var before := tokens;
        assert self[k..][1..] == self[k + 1..];
        PutMdc(self[k]);
        Put("", '\n');
        Associate(before, MdcTokens(self[k]), [BLANK]);
        Associate(before, MdcTokens(self[k]) + [BLANK], CmdElementTokens(self[k + 1..]));
        k := k + 1;
      }
      assert CmdElementTokens(self[k..]) == [] && tokens + [] == tokens;
    }

    method PutPropVec(v: Option<seq<string>>)
      requires Valid()
      modifies this
      ensures Valid() && tokens == old(tokens) + PropVecTokens(v)
    {
      hide Text, Decimal;
      Put(StrVecType(), '\n');
      if v.Some? {
        Put(Decimal(|v.value|), '\n');
        PutProps(v.value);
      } else {
        Put(Decimal(0), '\n');
        assert PropElementTokens([]) == [];
      }
      Put("", '\n');
    }

    method PutProps(self: seq<string>)
      requires Valid()
      modifies this
      ensures Valid() && tokens == old(tokens) + PropElementTokens(self)
    {
      hide Text;
      ghost var start := tokens;
      var k := 0;
      assert self[0..] == self;
      while k < |self|
        invariant 0 <= k <= |self| && Valid()
        invariant tokens + PropElementTokens(self[k..]) == start + PropElementTokens(self)
      {
        ghost var before := tokens;
        assert self[k..][1..] == self[k + 1..];
        Put(self[k], '\r');
        Associate(before, [Token(self[k], '\r')], PropElementTokens(self[k + 1..]));
        k := k + 1;
      }
      assert PropElementTokens(self[k..]) == [] && tokens + [] == tokens;
    }
  }

  class IStream {
    const text: string
    var pos: nat
    var eof: bool
    var fail: bool

    ghost predicate Valid()
      reads this
    {
      pos <= |text|
    }

    ghost function View(): In
      reads this
      requires Valid()
    {
      In(text[pos..], eof, fail)
    }

    constructor (text: string)
      ensures Valid() && View() == Fresh(text)
    {
      this.text := text;
      pos, eof, fail := 0, false, false;
    }

    /** std::getline */
    method Line(str: string, delim: char) returns (line: string)
      requires Valid()
      modifies this
      ensures Valid() && (View(), line) == GetLine(old(View()), str, delim)
    {
      if eof || fail {
        fail := true;
        return str;
      }
      hide Find;
      ghost var start := pos;
      line := TakeUntil(delim);
      CutTail(text, start, pos);
      FindExact(text[start..], delim, pos - start);
      if pos < |text| {
        pos := pos + 1;
      } else {
        eof := true;
        fail := line == [];
      }
    }

    method TakeUntil(delim: char) returns (line: string)
      requires Valid()
      modifies this`pos
      ensures old(pos) <= pos <= |text| && line == text[old(pos)..pos] && delim !in line
      ensures pos < |text| ==> text[pos] == delim
    {
      line := "";
      ghost var start := pos;
      while pos < |text| && text[pos] != delim
        invariant start <= pos <= |text|
        invariant line == text[start..pos] && delim !in line
      {
        assert text[start..pos + 1] == text[start..pos] + [text[pos]];
        line := line + [text[pos]];
        pos := pos + 1;
      }
    }

    static lemma CutTail(s: string, start: nat, pos: nat)
      requires start <= pos <= |s|
      ensures s[start..][..pos - start] == s[start..pos] && s[start..][pos - start..] == s[pos..]
      ensures pos < |s| ==> s[start..][pos - start] == s[pos] && s[start..][pos - start + 1..] == s[pos + 1..]
      ensures pos == |s| ==> s[start..] == s[start..pos] && s[pos..] == []
    {
    }

    /** getline(&newline, 1) */
    method Newline()
      requires Valid()
      modifies this
      ensures Valid() && View() == SkipNewline(old(View()))
    {
      if eof || fail {
        fail := true;
      } else if pos == |text| {
        eof, fail := true, true;
      } else if text[pos] == '\n' {
        pos := pos + 1;
      } else {
        fail := true;
      }
    }

    /** The sentry of a formatted extraction: skips white space and reports whether there is anything to extract. */
    method Sentry() returns (ok: bool)
      requires Valid()
      modifies this
      ensures Valid()
      ensures ok <==> Good(old(View())) && old(View()).rest[Run(old(View()).rest, IsSpace)..] != []
      ensures ok ==> View() == Fresh(old(View()).rest[Run(old(View()).rest, IsSpace)..])
      ensures !ok ==> View() == (if Good(old(View())) then In([], true, true) else old(View()).(fail := true))
    {
      if eof || fail {
        fail := true;
        return false;
      }
      ghost var start := pos;
      while pos < |text| && IsSpace(text[pos])
        modifies this`pos
        invariant start <= pos <= |text|
        invariant forall k :: start <= k < pos ==> IsSpace(text[k])
      {
        pos := pos + 1;
      }
      RunExact(text[start..], IsSpace, pos - start);
      assert text[start..][pos - start..] == text[pos..];
      ok := pos < |text|;
      if !ok {
        eof, fail := true, true;
      }
    }

    /** Accumulates an optional sign and the digits behind it. */
    method Number() returns (negative: bool, digits: nat, value: nat)
      requires Valid() && !eof && !fail
      modifies this`pos
      ensures Valid()
      ensures var r := Scan(old(View()).rest);
              negative == r.negative && digits == |r.digits| && value == DigitsValue(r.digits) && text[pos..] == r.rest
    {
      hide Run, DigitsValue;
      negative, digits, value := false, 0, 0;
      ghost var s := View().rest;
      if pos < |text| && (text[pos] == '-' || text[pos] == '+') {
        negative := text[pos] == '-';
        pos := pos + 1;
      }
      ghost var start := pos;
      assert text[start..] == if start == old(pos) then s else s[1..];
      digits, value := Digits();
      assert text[start..][..digits] == text[start..pos] && text[start..][digits..] == text[pos..];
    }

    method Digits() returns (digits: nat, value: nat)
      requires Valid()
      modifies this`pos
      ensures Valid() && pos == old(pos) + digits && Run(text[old(pos)..], IsDigit) == digits
      ensures (forall c :: c in text[old(pos)..pos] ==> IsDigit(c)) && value == DigitsValue(text[old(pos)..pos])
    {
      hide DigitsValue;
      digits, value := 0, 0;
      ghost var start := pos;
      DigitsValueNext("", '0');
      while pos < |text| && IsDigit(text[pos])
        invariant start <= pos <= |text| && digits == pos - start
        invariant forall c :: c in text[start..pos] ==> IsDigit(c)
        invariant value == DigitsValue(text[start..pos])
      {
        assert text[start..pos + 1] == text[start..pos] + [text[pos]];
        DigitsValueNext(text[start..pos], text[pos]);
        value := 10 * value + DigitOf(text[pos]);
        digits := digits + 1;
        pos := pos + 1;
      }
      assert forall k :: start <= k < pos ==> text[k] in text[start..pos];
      RunExact(text[start..], IsDigit, pos - start);
    }

    static lemma DigitsValueNext(s: string, c: char)
      requires IsDigit(c) && forall d :: d in s ==> IsDigit(d)
      ensures (forall d :: d in s + [c] ==> IsDigit(d)) && DigitsValue(s + [c]) == 10 * DigitsValue(s) + DigitOf(c)
      ensures DigitsValue([]) == 0
    {
      assert (s + [c])[..|s|] == s;
    }

    method Int(n: int, lo: int, hi: int) returns (v: int)
      requires Valid()
      modifies this
      ensures Valid() && (View(), v) == GetInt(old(View()), n, lo, hi)
    {
      hide Scan, DigitsValue, Run;
      ghost var i := View();
      var ok := Sentry();
      if !ok {
        return n;
      }
      ghost var r := Scan(View().rest);
      var negative, digits, value := Number();
      var m: int := value;
      v := if negative then -m else m;
      eof := pos == |text|;
      fail := digits == 0 || v < lo || v > hi;
      v := Clamp(v, lo, hi);
      assert r == Scan(i.rest[Run(i.rest, IsSpace)..]);
    }

    method Bool(b: bool) returns (v: bool)
      requires Valid()
      modifies this
      ensures Valid() && (View(), v) == GetBool(old(View()), b)
    {
      hide GetInt;
      var n := Int(if b then 1 else 0, -LONG_MAX - 1, LONG_MAX);
      if n != 0 && n != 1 {
        fail := true;
      }
      v := n != 0;
    }

    method Size(n: nat) returns (v: nat)
      requires Valid()
      modifies this
      ensures Valid() && (View(), v) == GetSize(old(View()), n)
    {
      hide Scan, DigitsValue, Run;
      ghost var i := View();
      var ok := Sentry();
      if !ok {
        return n;
      }
      ghost var r := Scan(View().rest);
      var negative, digits, value := Number();
      eof := pos == |text|;
      fail := digits == 0 || value > SIZE_MAX;
      v := if value > SIZE_MAX then SIZE_MAX else if negative && value > 0 then SIZE_MAX + 1 - value else value;
      assert r == Scan(i.rest[Run(i.rest, IsSpace)..]);
    }

    method Md(md: MethodDescriptor) returns (r: MethodDescriptor)
      requires Valid()
      modifies this
      ensures Valid() && (View(), r) == ReadMd(old(View()), md)
    {
      hide GetLine, GetBool, GetInt, SkipNewline;
      var typeName := Line("", '\n');
      var isStatic := Bool(md.isStatic);
      Newline();
      var sint := Int(0, -0x8000, 0x7FFF);
      Newline();
      var name := Line(md.fullMethodName, '\n');
      var desc := Line(md.descriptor, '\n');
      r := MethodDescriptor(isStatic, sint, name, desc);
    }

    method Mdc(m: MethodDescriptorCmd) returns (r: MethodDescriptorCmd)
      requires Valid()
      modifies this
      ensures Valid() && (View(), r) == ReadMdc(old(View()), m)
    {
      hide GetLine, ReadMd;
      var typeName := Line("", '\n');
      var base := Md(m.base);
      var command := Line(m.command, '\n');
      var jvmOptions := Line(m.jvmOptions, '\n');
      r := MethodDescriptorCmd(base, command, jvmOptions);
    }

    method Count() returns (count: nat)
      requires Valid()
      modifies this
      ensures Valid() && (View(), count) == ReadCount(old(View()))
    {
      hide GetLine, GetSize, SkipNewline;
      var typeName := Line("", '\n');
      count := Size(0);
      Newline();
    }

    /** stream_vec_in for command descriptors */
    method CmdVec(v: Option<seq<MethodDescriptorCmd>>) returns (r: Option<seq<MethodDescriptorCmd>>)
      requires Valid()
      modifies this
      ensures Valid() && (View(), r) == ReadCmdVec(old(View()), v)
    {
      hide ReadMdc, SkipNewline, ReadCount;
      var count := Count();
      r := v;
      if count > 0 {
        ghost var start := View();
        var self: seq<MethodDescriptorCmd> := [];
        var t := NO_COMMAND;
        var k := 0;
        assert self + ReadCmds(start, count, t).1 == ReadCmds(start, count, t).1;
        while k < count
          invariant 0 <= k <= count && Valid()
          invariant var (i, more) := ReadCmds(View(), count - k, t);
                    ReadCmds(start, count, NO_COMMAND) == (i, self + more)
        {
          t := Mdc(t);
          Newline();
          Associate(self, [t], ReadCmds(View(), count - k - 1, MovedFrom(t)).1);
          self := self + [t];
          t := MovedFrom(t);
          k := k + 1;
        }
        assert self + [] == self;
        r := Some(self);
      }
      Newline();
    }

    /** stream_vec_in for the system properties */
    method PropVec(v: Option<seq<string>>) returns (r: Option<seq<string>>)
      requires Valid()
      modifies this
      ensures Valid() && (View(), r) == ReadPropVec(old(View()), v)
    {
      hide GetLine, SkipNewline, ReadCount;
      var count := Count();
      r := v;
      if count > 0 {
        ghost var start := View();
        var self: seq<string> := [];
        var k := 0;
        assert self + ReadProps(start, count).1 == ReadProps(start, count).1;
        while k < count
          invariant 0 <= k <= count && Valid()
          invariant var (i, more) := ReadProps(View(), count - k); ReadProps(start, count) == (i, self + more)
        {
          var str := Line("", '\r');
          Associate(self, [str], ReadProps(View(), count - k - 1).1);
          self := self + [str];
          k := k + 1;
        }
        assert self + [] == self;
        r := Some(self);
      }
      Newline();
    }
  }

  class SessionState {
    var supervisorPid: int
    var childProcessMaxCount: int
    var spartanMainEntryPoint: MethodDescriptor
    var spartanGetStatusEntryPoint: MethodDescriptor
    var spartanSupervisorShutdownEntryPoint: MethodDescriptor
    var spartanChildNotifyEntryPoint: MethodDescriptor
    var spartanChildCompletionNotifyEntryPoint: MethodDescriptor
    var spartanSupervisorEntryPoint: MethodDescriptor
    var spartanChildProcessorEntryPoint: MethodDescriptor
    var spartanChildProcessorCommands: string
    var systemClassPath: string
    var spSpartanSupervisorCommands: Option<seq<MethodDescriptorCmd>>
    var spSpartanChildProcessorCommands: Option<seq<MethodDescriptorCmd>>
    var spSerializedSystemProperties: Option<seq<string>>
    var spartanLoggingLevel: string
    var jvmlibPath: string

    function Info(): SessionInfo
      reads this
    {
      SessionInfo(supervisorPid, childProcessMaxCount, spartanMainEntryPoint, spartanGetStatusEntryPoint,
                  spartanSupervisorShutdownEntryPoint, spartanChildNotifyEntryPoint,
                    spartanChildCompletionNotifyEntryPoint,
                  spartanSupervisorEntryPoint, spartanChildProcessorEntryPoint, spartanChildProcessorCommands,
                    systemClassPath,
                  spSpartanSupervisorCommands, spSpartanChildProcessorCommands, spSerializedSystemProperties,
                  spartanLoggingLevel, jvmlibPath)
    }

    constructor ()
      ensures Info() == FRESH
    {
      supervisorPid, childProcessMaxCount := 0, 0;
      spartanMainEntryPoint, spartanGetStatusEntryPoint := NO_METHOD, NO_METHOD;
      spartanSupervisorShutdownEntryPoint, spartanChildNotifyEntryPoint := NO_METHOD, NO_METHOD;
      spartanChildCompletionNotifyEntryPoint, spartanSupervisorEntryPoint := NO_METHOD, NO_METHOD;
      spartanChildProcessorEntryPoint := NO_METHOD;
      spartanChildProcessorCommands, systemClassPath := "", "";
      spSpartanSupervisorCommands, spSpartanChildProcessorCommands, spSerializedSystemProperties := None, None, None;
      spartanLoggingLevel, jvmlibPath := "", "";
    }

    /** operator<< */
    method PrintTo(strm: OStream)
      requires strm.Valid()
      modifies strm
      ensures strm.Valid() && strm.tokens == old(strm.tokens) + SessionTokens(Info())
    {
      hide Text, HeadTokens, EntriesTokens, VectorsTokens;
      ghost var start := strm.tokens;
      PrintHeadTo(strm);
      PrintEntriesTo(strm);
      PrintTwo(spartanChildProcessorCommands, systemClassPath, strm);
      PrintVectorsTo(strm);
      PrintTwo(spartanLoggingLevel, jvmlibPath, strm);
      Together(start, HeadTokens(Info()), EntriesTokens(Info()),
        [Line(spartanChildProcessorCommands), Line(systemClassPath)],
               VectorsTokens(Info()), [Line(spartanLoggingLevel), Line(jvmlibPath)]);
    }

    static lemma Together(start: seq<Token>, a: seq<Token>, b: seq<Token>, c: seq<Token>, d: seq<Token>, e: seq<Token>)
      ensures start + a + b + c + d + e == start + (a + (b + (c + (d + e))))
    {
    }

    method PrintHeadTo(strm: OStream)
      requires strm.Valid()
      modifies strm
      ensures strm.Valid() && strm.tokens == old(strm.tokens) + HeadTokens(Info())
    {
      hide Text, Decimal;
      strm.Put(SessionType(), '\n');
      strm.Put(Decimal(supervisorPid), '\n');
      strm.Put(Decimal(childProcessMaxCount), '\n');
    }

    static method PrintTwo(first: string, second: string, strm: OStream)
      requires strm.Valid()
      modifies strm
      ensures strm.Valid() && strm.tokens == old(strm.tokens) + [Line(first), Line(second)]
    {
      hide Text;
      strm.Put(first, '\n');
      strm.Put(second, '\n');
    }

    method PrintEntriesTo(strm: OStream)
      requires strm.Valid()
      modifies strm
      ensures strm.Valid() && strm.tokens == old(strm.tokens) + EntriesTokens(Info())
    {
      hide Text, MdTokens;
      PrintEntry(spartanMainEntryPoint, strm);
      PrintEntry(spartanGetStatusEntryPoint, strm);
      PrintEntry(spartanSupervisorShutdownEntryPoint, strm);
      PrintEntry(spartanChildNotifyEntryPoint, strm);
      PrintEntry(spartanChildCompletionNotifyEntryPoint, strm);
      PrintEntry(spartanSupervisorEntryPoint, strm);
      PrintEntry(spartanChildProcessorEntryPoint, strm);
    }

    static method PrintEntry(md: MethodDescriptor, strm: OStream)
      requires strm.Valid()
      modifies strm
      ensures strm.Valid() && strm.tokens == old(strm.tokens) + EntryTokens(md)
    {
      strm.PutMd(md);
      strm.Put("", '\n');
    }

    method PrintVectorsTo(strm: OStream)
      requires strm.Valid()
      modifies strm
      ensures strm.Valid() && strm.tokens == old(strm.tokens) + VectorsTokens(Info())
    {
      hide Text, CmdVecTokens, PropVecTokens;
      strm.PutCmdVec(spSpartanSupervisorCommands);
      strm.Put("", '\n');
      strm.PutCmdVec(spSpartanChildProcessorCommands);
      strm.Put("", '\n');
      strm.PutPropVec(spSerializedSystemProperties);
      strm.Put("", '\n');
    }

    /** operator>> */
    method ReadFrom(strm: IStream)
      requires strm.Valid()
      modifies this, strm
      ensures strm.Valid() && (strm.View(), Info()) == ReadSession(old(strm.View()), old(Info()))
    {
      hide ReadHead, ReadEntries, ReadVectors, GetLine;
      ReadHeadFrom(strm);
      ReadEntriesFrom(strm);
      spartanChildProcessorCommands := strm.Line(spartanChildProcessorCommands, '\n');
      systemClassPath := strm.Line(systemClassPath, '\n');
      ReadVectorsFrom(strm);
      spartanLoggingLevel := strm.Line(spartanLoggingLevel, '\n');
      jvmlibPath := strm.Line(jvmlibPath, '\n');
    }

    method ReadHeadFrom(strm: IStream)
      requires strm.Valid()
      modifies this, strm
      ensures strm.Valid() && (strm.View(), Info()) == ReadHead(old(strm.View()), old(Info()))
    {
      hide GetLine, GetInt, SkipNewline;
      var typeName := strm.Line("", '\n');
      supervisorPid := strm.Int(supervisorPid, -0x8000_0000, 0x7FFF_FFFF);
      strm.Newline();
      childProcessMaxCount := strm.Int(childProcessMaxCount, -0x8000, 0x7FFF);
      strm.Newline();
    }

    method ReadEntriesFrom(strm: IStream)
      requires strm.Valid()
      modifies this, strm
      ensures strm.Valid() && (strm.View(), Info()) == ReadEntries(old(strm.View()), old(Info()))
    {
      hide ReadEntry, CleanMd, ReadEntries;
      ghost var s, i := Info(), strm.View();
      spartanMainEntryPoint := ReadEntryFrom(strm, spartanMainEntryPoint);
      ghost var i0 := strm.View();
      spartanGetStatusEntryPoint := ReadEntryFrom(strm, spartanGetStatusEntryPoint);
      ghost var i1 := strm.View();
      spartanSupervisorShutdownEntryPoint := ReadEntryFrom(strm, spartanSupervisorShutdownEntryPoint);
      ghost var i2 := strm.View();
      spartanChildNotifyEntryPoint := ReadEntryFrom(strm, spartanChildNotifyEntryPoint);
      ghost var i3 := strm.View();
      spartanChildCompletionNotifyEntryPoint := ReadEntryFrom(strm, spartanChildCompletionNotifyEntryPoint);
      ghost var i4 := strm.View();
      spartanSupervisorEntryPoint := ReadEntryFrom(strm, spartanSupervisorEntryPoint);
      ghost var i5 := strm.View();
      spartanChildProcessorEntryPoint := ReadEntryFrom(strm, spartanChildProcessorEntryPoint);
      ghost var i6 := strm.View();
      EntriesChain(i, s, Info(), i0, i1, i2, i3, i4, i5, i6);
    }

    static lemma EntriesChain(i: In, s: SessionInfo, r: SessionInfo, i0: In, i1: In, i2: In, i3: In, i4: In, i5: In,
        i6: In)
      requires (i0, r.mainEntry) == ReadEntry(i, s.mainEntry)
      requires (i1, r.getStatusEntry) == ReadEntry(i0, s.getStatusEntry)
      requires (i2, r.shutdownEntry) == ReadEntry(i1, s.shutdownEntry)
      requires (i3, r.childNotifyEntry) == ReadEntry(i2, s.childNotifyEntry)
      requires (i4, r.childCompletionEntry) == ReadEntry(i3, s.childCompletionEntry)
      requires (i5, r.supervisorEntry) == ReadEntry(i4, s.supervisorEntry)
      requires (i6, r.childProcessorEntry) == ReadEntry(i5, s.childProcessorEntry)
      ensures ReadEntries(i, s) ==
              (i6, s.(mainEntry := r.mainEntry, getStatusEntry := r.getStatusEntry, shutdownEntry := r.shutdownEntry,
                      childNotifyEntry := r.childNotifyEntry, childCompletionEntry := r.childCompletionEntry,
                      supervisorEntry := r.supervisorEntry, childProcessorEntry := r.childProcessorEntry))
    {
      hide ReadEntry;
    }

    static method ReadEntryFrom(strm: IStream, md: MethodDescriptor) returns (r: MethodDescriptor)
      requires strm.Valid()
      modifies strm
      ensures strm.Valid() && (strm.View(), r) == ReadEntry(old(strm.View()), md)
    {
      hide ReadMd, SkipNewline;
      r := strm.Md(md);
      strm.Newline();
    }

    method ReadVectorsFrom(strm: IStream)
      requires strm.Valid()
      modifies this, strm
      ensures strm.Valid() && (strm.View(), Info()) == ReadVectors(old(strm.View()), old(Info()))
    {
      hide ReadCmdVec, ReadPropVec, SkipNewline;
      spSpartanSupervisorCommands := strm.CmdVec(spSpartanSupervisorCommands);
      strm.Newline();
      spSpartanChildProcessorCommands := strm.CmdVec(spSpartanChildProcessorCommands);
      strm.Newline();
      spSerializedSystemProperties := strm.PropVec(spSerializedSystemProperties);
      strm.Newline();
    }
  }
}
