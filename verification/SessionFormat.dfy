/** What a sessionState holds, the tokens it is printed as, and what extraction makes of a stream. */
module SessionFormat {
  import opened Prelude
  import opened TextStreams

  datatype MethodDescriptor = MethodDescriptor(isStatic: bool, whichMethod: int, fullMethodName: string,
      descriptor: string)

  datatype MethodDescriptorCmd = MethodDescriptorCmd(base: MethodDescriptor, command: string, jvmOptions: string)

  datatype SessionInfo = SessionInfo(
    supervisorPid: int,
    childProcessMaxCount: int,
    mainEntry: MethodDescriptor,
    getStatusEntry: MethodDescriptor,
    shutdownEntry: MethodDescriptor,
    childNotifyEntry: MethodDescriptor,
    childCompletionEntry: MethodDescriptor,
    supervisorEntry: MethodDescriptor,
    childProcessorEntry: MethodDescriptor,
    childProcessorCommands: string,
    systemClassPath: string,
    supervisorCmds: Option<seq<MethodDescriptorCmd>>,
    childCmds: Option<seq<MethodDescriptorCmd>>,
    systemProperties: Option<seq<string>>,
    loggingLevel: string,
    jvmlibPath: string)

  const NO_METHOD := MethodDescriptor(true, 0, "", "")
  const NO_COMMAND := MethodDescriptorCmd(NO_METHOD, "", "")

  /** A default-constructed sessionState. */
  const FRESH := SessionInfo(0, 0, NO_METHOD, NO_METHOD, NO_METHOD, NO_METHOD, NO_METHOD, NO_METHOD, NO_METHOD,
                             "", "", None, None, None, "", "")

  // typeid(..).name() of the printed types; extraction skips whatever stands on those lines

  function MdType(): (s: string)
    ensures '\n' !in s
  {
    "16methodDescriptor"
  }

  function MdcType(): (s: string)
    ensures '\n' !in s
  {
    "19methodDescriptorCmd"
  }

  function CmdVecType(): (s: string)
    ensures '\n' !in s
  {
    "St6vectorI19methodDescriptorCmdSaIS0_EE"
  }

  function StrVecType(): (s: string)
    ensures '\n' !in s
  {
    "St6vectorINSt7__cxx1112basic_string" + "IcSt11char_traitsIcESaIcEEESaIS5_EE"
  }

  function SessionType(): (s: string)
    ensures '\n' !in s
  {
    "12sessionState"
  }

  // ---- printing

  function BoolText(b: bool): string {
    Decimal(if b then 1 else 0)
  }

  function MdTokens(md: MethodDescriptor): seq<Token> {
    [Line(MdType()), Line(BoolText(md.isStatic)), Line(Decimal(md.whichMethod)), Line(md.fullMethodName),
      Line(md.descriptor)]
  }

  function MdcTokens(m: MethodDescriptorCmd): seq<Token> {
    [Line(MdcType())] + MdTokens(m.base) + [Line(m.command), Line(m.jvmOptions)]
  }

  function Elements<T>(v: Option<seq<T>>): seq<T> {
    if v.Some? then v.value else []
  }

  function CmdElementTokens(v: seq<MethodDescriptorCmd>): seq<Token> {
    if v == [] then [] else MdcTokens(v[0]) + [BLANK] + CmdElementTokens(v[1..])
  }

  function CmdVecTokens(v: Option<seq<MethodDescriptorCmd>>): seq<Token> {
    [Line(CmdVecType()), Line(Decimal(|Elements(v)|))] + CmdElementTokens(Elements(v)) + [BLANK]
  }

  function PropElementTokens(v: seq<string>): seq<Token> {
    if v == [] then [] else [Token(v[0], '\r')] + PropElementTokens(v[1..])
  }

  function PropVecTokens(v: Option<seq<string>>): seq<Token> {
    [Line(StrVecType()), Line(Decimal(|Elements(v)|))] + PropElementTokens(Elements(v)) + [BLANK]
  }

  function HeadTokens(s: SessionInfo): seq<Token> {
    [Line(SessionType()), Line(Decimal(s.supervisorPid)), Line(Decimal(s.childProcessMaxCount))]
  }

  function EntryTokens(md: MethodDescriptor): seq<Token> {
    MdTokens(md) + [BLANK]
  }

  function EntriesTokens(s: SessionInfo): seq<Token> {
    EntryTokens(s.mainEntry) + (EntryTokens(s.getStatusEntry) + (EntryTokens(s.shutdownEntry) +
    (EntryTokens(s.childNotifyEntry) + (EntryTokens(s.childCompletionEntry) + (EntryTokens(s.supervisorEntry) +
    EntryTokens(s.childProcessorEntry))))))
  }

  function VectorsTokens(s: SessionInfo): seq<Token> {
    (CmdVecTokens(s.supervisorCmds) + [BLANK]) +
      ((CmdVecTokens(s.childCmds) + [BLANK]) + (PropVecTokens(s.systemProperties) + [BLANK]))
  }

  function SessionTokens(s: SessionInfo): seq<Token> {
    HeadTokens(s) + (EntriesTokens(s) + ([Line(s.childProcessorCommands), Line(s.systemClassPath)] +
    (VectorsTokens(s) + [Line(s.loggingLevel), Line(s.jvmlibPath)])))
  }

  /** operator<< for sessionState. */
  function Printed(s: SessionInfo): string {
    Text(SessionTokens(s), [])
  }

  // ---- which sessions can be read back

  predicate CleanMd(md: MethodDescriptor) {
    '\n' !in md.fullMethodName && '\n' !in md.descriptor
  }

  predicate CleanMdc(m: MethodDescriptorCmd) {
    CleanMd(m.base) && '\n' !in m.command && '\n' !in m.jvmOptions
  }

  predicate CleanCmds(v: seq<MethodDescriptorCmd>) {
    forall k :: 0 <= k < |v| ==> CleanMdc(v[k])
  }

  predicate CleanProps(v: seq<string>) {
    forall k :: 0 <= k < |v| ==> '\r' !in v[k]
  }

  predicate CleanEntries(s: SessionInfo) {
    && CleanMd(s.mainEntry) && CleanMd(s.getStatusEntry) && CleanMd(s.shutdownEntry) && CleanMd(s.childNotifyEntry)
    && CleanMd(s.childCompletionEntry) && CleanMd(s.supervisorEntry) && CleanMd(s.childProcessorEntry)
  }

  predicate CleanVectors(s: SessionInfo) {
    && CleanCmds(Elements(s.supervisorCmds)) && CleanCmds(Elements(s.childCmds)) &&
       CleanProps(Elements(s.systemProperties))
  }

  predicate CleanStrings(s: SessionInfo) {
    '\n' !in s.childProcessorCommands && '\n' !in s.systemClassPath && '\n' !in s.loggingLevel && '\n' !in s.jvmlibPath
  }

  /** Ordinary strings hold no newline and system property strings no carriage return. */
  predicate Clean(s: SessionInfo) {
    CleanEntries(s) && CleanStrings(s) && CleanVectors(s)
  }

  predicate IsShort(n: int) {
    -0x8000 <= n <= 0x7FFF
  }

  predicate IsInt(n: int) {
    -0x8000_0000 <= n <= 0x7FFF_FFFF
  }

  predicate FitsCmds(v: seq<MethodDescriptorCmd>) {
    |v| <= SIZE_MAX && forall k :: 0 <= k < |v| ==> IsShort(v[k].base.whichMethod)
  }

  predicate FitsEntries(s: SessionInfo) {
    && IsShort(s.mainEntry.whichMethod) && IsShort(s.getStatusEntry.whichMethod) && IsShort(s.shutdownEntry.whichMethod)
    && IsShort(s.childNotifyEntry.whichMethod) && IsShort(s.childCompletionEntry.whichMethod)
    && IsShort(s.supervisorEntry.whichMethod) && IsShort(s.childProcessorEntry.whichMethod)
  }

  predicate FitsVectors(s: SessionInfo) {
    FitsCmds(Elements(s.supervisorCmds)) && FitsCmds(Elements(s.childCmds)) &&
      |Elements(s.systemProperties)| <= SIZE_MAX
  }

  /** The numbers are values of their C++ types: pid_t, short int, an enum over short, and std::size_t. */
  predicate Representable(s: SessionInfo) {
    IsInt(s.supervisorPid) && IsShort(s.childProcessMaxCount) && FitsEntries(s) && FitsVectors(s)
  }

  // ---- extraction

  /** operator>> for methodDescriptor. The local short that a failed stream leaves unset is taken as 0. */
  function ReadMd(i: In, md: MethodDescriptor): (r: (In, MethodDescriptor))
    ensures CleanMd(md) ==> CleanMd(r.1)
  {
    var i0 := GetLine(i, "", '\n').0;
    var (i1, isStatic) := GetBool(i0, md.isStatic);
    var (i2, which) := GetInt(SkipNewline(i1), 0, -0x8000, 0x7FFF);
    var (i3, name) := GetLine(SkipNewline(i2), md.fullMethodName, '\n');
    var (i4, desc) := GetLine(i3, md.descriptor, '\n');
    (i4, MethodDescriptor(isStatic, which, name, desc))
  }

  /** operator>> for methodDescriptorCmd. */
  function ReadMdc(i: In, m: MethodDescriptorCmd): (r: (In, MethodDescriptorCmd))
    ensures CleanMdc(m) ==> CleanMdc(r.1)
  {
    var i0 := GetLine(i, "", '\n').0;
    var (i1, base) := ReadMd(i0, m.base);
    var (i2, command) := GetLine(i1, m.command, '\n');
    var (i3, jvmOptions) := GetLine(i2, m.jvmOptions, '\n');
    (i3, MethodDescriptorCmd(base, command, jvmOptions))
  }

  /** What std::move leaves of an element. */
  function MovedFrom(m: MethodDescriptorCmd): MethodDescriptorCmd {
    MethodDescriptorCmd(m.base.(fullMethodName := "", descriptor := ""), "", "")
  }

  function ReadCmds(i: In, count: nat, t: MethodDescriptorCmd): (r: (In, seq<MethodDescriptorCmd>))
    ensures |r.1| == count
    decreases count
  {
    if count == 0 then (i, [])
    else
      var (i0, m) := ReadMdc(i, t);
      var (i1, more) := ReadCmds(SkipNewline(i0), count - 1, MovedFrom(m));
      (i1, [m] + more)
  }

  lemma {:induction false} ReadCmdsClean(i: In, count: nat, t: MethodDescriptorCmd)
    requires CleanMdc(t)
    ensures CleanCmds(ReadCmds(i, count, t).1)
    decreases count
  {
    hide ReadMdc;
    if count > 0 {
      var (i0, m) := ReadMdc(i, t);
      ReadCmdsClean(SkipNewline(i0), count - 1, MovedFrom(m));
    }
  }

  function ReadProps(i: In, count: nat): (r: (In, seq<string>))
    ensures CleanProps(r.1)
    ensures |r.1| == count
    decreases count
  {
    if count == 0 then (i, [])
    else
      var (i0, str) := GetLine(i, "", '\r');
      var (i1, more) := ReadProps(i0, count - 1);
      (i1, [str] + more)
  }

  /** The type name, the element count and its newline. */
  function ReadCount(i: In): (In, nat) {
    var (i0, count) := GetSize(GetLine(i, "", '\n').0, 0);
    (SkipNewline(i0), count)
  }

  /** stream_vec_in: a count of 0 leaves the vector it was given. */
  function ReadCmdVec(i: In, v: Option<seq<MethodDescriptorCmd>>): (r: (In, Option<seq<MethodDescriptorCmd>>))
    ensures CleanCmds(Elements(v)) ==> CleanCmds(Elements(r.1))
  {
    var (i0, count) := ReadCount(i);
    if count == 0 then (SkipNewline(i0), v)
    else
      var (i1, elems) := ReadCmds(i0, count, NO_COMMAND);
      ReadCmdsClean(i0, count, NO_COMMAND);
      (SkipNewline(i1), Some(elems))
  }

  function ReadPropVec(i: In, v: Option<seq<string>>): (r: (In, Option<seq<string>>))
    ensures CleanProps(Elements(v)) ==> CleanProps(Elements(r.1))
  {
    var (i0, count) := ReadCount(i);
    if count == 0 then (SkipNewline(i0), v)
    else
      var (i1, elems) := ReadProps(i0, count);
      (SkipNewline(i1), Some(elems))
  }

  function ReadHead(i: In, s: SessionInfo): (r: (In, SessionInfo))
    ensures CleanEntries(s) ==> CleanEntries(r.1)
    ensures CleanStrings(s) ==> CleanStrings(r.1)
    ensures CleanVectors(s) ==> CleanVectors(r.1)
  {
    var i0 := GetLine(i, "", '\n').0;
    var (i1, pid) := GetInt(i0, s.supervisorPid, -0x8000_0000, 0x7FFF_FFFF);
    var (i2, max) := GetInt(SkipNewline(i1), s.childProcessMaxCount, -0x8000, 0x7FFF);
    (SkipNewline(i2), s.(supervisorPid := pid, childProcessMaxCount := max))
  }

  function ReadEntry(i: In, md: MethodDescriptor): (r: (In, MethodDescriptor))
    ensures CleanMd(md) ==> CleanMd(r.1)
  {
    var (i0, m) := ReadMd(i, md);
    (SkipNewline(i0), m)
  }

  function ReadEntries(i: In, s: SessionInfo): (r: (In, SessionInfo))
    ensures CleanEntries(s) ==> CleanEntries(r.1)
    ensures CleanStrings(s) ==> CleanStrings(r.1)
    ensures CleanVectors(s) ==> CleanVectors(r.1)
  {
    var (i0, m0) := ReadEntry(i, s.mainEntry);
    var (i1, m1) := ReadEntry(i0, s.getStatusEntry);
    var (i2, m2) := ReadEntry(i1, s.shutdownEntry);
    var (i3, m3) := ReadEntry(i2, s.childNotifyEntry);
    var (i4, m4) := ReadEntry(i3, s.childCompletionEntry);
    var (i5, m5) := ReadEntry(i4, s.supervisorEntry);
    var (i6, m6) := ReadEntry(i5, s.childProcessorEntry);
    (i6, s.(mainEntry := m0, getStatusEntry := m1, shutdownEntry := m2, childNotifyEntry := m3,
            childCompletionEntry := m4, supervisorEntry := m5, childProcessorEntry := m6))
  }

  function ReadSettings(i: In, s: SessionInfo): (r: (In, SessionInfo))
    ensures CleanEntries(s) ==> CleanEntries(r.1)
    ensures CleanStrings(s) ==> CleanStrings(r.1)
    ensures CleanVectors(s) ==> CleanVectors(r.1)
  {
    var (i0, commands) := GetLine(i, s.childProcessorCommands, '\n');
    var (i1, classPath) := GetLine(i0, s.systemClassPath, '\n');
    (i1, s.(childProcessorCommands := commands, systemClassPath := classPath))
  }

  function ReadVectors(i: In, s: SessionInfo): (r: (In, SessionInfo))
    ensures CleanEntries(s) ==> CleanEntries(r.1)
    ensures CleanStrings(s) ==> CleanStrings(r.1)
    ensures CleanVectors(s) ==> CleanVectors(r.1)
  {
    var (i0, v0) := ReadCmdVec(i, s.supervisorCmds);
    var (i1, v1) := ReadCmdVec(SkipNewline(i0), s.childCmds);
    var (i2, v2) := ReadPropVec(SkipNewline(i1), s.systemProperties);
    (SkipNewline(i2), s.(supervisorCmds := v0, childCmds := v1, systemProperties := v2))
  }

  function ReadEnd(i: In, s: SessionInfo): (r: (In, SessionInfo))
    ensures CleanEntries(s) ==> CleanEntries(r.1)
    ensures CleanStrings(s) ==> CleanStrings(r.1)
    ensures CleanVectors(s) ==> CleanVectors(r.1)
  {
    var (i0, level) := GetLine(i, s.loggingLevel, '\n');
    var (i1, path) := GetLine(i0, s.jvmlibPath, '\n');
    (i1, s.(loggingLevel := level, jvmlibPath := path))
  }

  /** operator>> for sessionState. */
  function ReadSession(i: In, s: SessionInfo): (r: (In, SessionInfo))
    ensures Clean(s) ==> Clean(r.1)
  {
    var (i0, s0) := ReadHead(i, s);
    var (i1, s1) := ReadEntries(i0, s0);
    var (i2, s2) := ReadSettings(i1, s1);
    var (i3, s3) := ReadVectors(i2, s2);
    ReadEnd(i3, s3)
  }
}
