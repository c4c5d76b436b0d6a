/** Printing sections and pairs and parsing the text back: what survives, and that nothing else does. */
module IniRoundTrip {
  import opened Prelude
  import opened IniFormat

  datatype Item = Head(name: string) | Entry(key: string, value: string)

  function Printed(item: Item): string {
    match item
    case Head(name) => "[" + name + "]\n"
    case Entry(key, value) => key + "=" + value + "\n"
  }

  function Print(items: seq<Item>): string {
    if items == [] then "" else Printed(items[0]) + Print(items[1..])
  }

  function CallsOf(section: string, items: seq<Item>): seq<Call>
    decreases |items|
  {
    if items == [] then []
    else
      match items[0]
      case Head(name) => CallsOf(name, items[1..])
      case Entry(key, value) => [Call(section, key, value)] + CallsOf(section, items[1..])
  }

  function LastSection(section: string, items: seq<Item>): string
    decreases |items|
  {
    if items == [] then section
    else LastSection(if items[0].Head? then items[0].name else section, items[1..])
  }

  predicate OneLine(s: string) {
    '\n' !in s && '\0' !in s
  }

  /** What survives printing and parsing but for a byte order mark: the exact limits of the code. */
  predicate CleanItem(item: Item) {
    match item
    case Head(name) => FitSection(name)
    case Entry(key, value) => FitPair(key, value)
  }

  /** A text on one line, without ']' and comment, of up to 49 characters. */
  predicate FitSection(name: string) {
    OneLine(name) && ']' !in name && NoComment(name) && |name| <= 49
  }

  /** Clean texts, each on one line, that fit the line buffer together with their separator. */
  predicate FitPair(key: string, value: string) {
    OneLine(key) && OneLine(value) && CleanPair(key, value) && |key| + |value| + 1 <= 511
  }

  /** The parser takes what looks like a byte order mark off the first line. */
  predicate LosesBom(p: Progress, item: Item) {
    p.lineno == 0 && HasBom(Printed(item))
  }

  /** A pair that fills the line buffer leaves its newline to a line of its own. */
  function LinesOf(item: Item): nat {
    if item.Entry? && |item.key| + |item.value| + 2 == INI_MAX_LINE then 2 else 1
  }

  function LineCount(items: seq<Item>): nat {
    if items == [] then 0 else LinesOf(items[0]) + LineCount(items[1..])
  }

  // ---- one item

  lemma LineEnd(s: string)
    ensures ParseLine(s + "\n") == ParseLine(s)
  {
    assert (s + "\n")[..|s|] == s;
    assert RStrip(s + "\n") == RStrip(s);
  }

  /** What a printed item says, with or without its newline. */
  lemma ItemSays(item: Item)
    requires CleanItem(item)
    ensures var line := Printed(item);
            var said := if item.Head? then Section(item.name) else Pair(item.key, item.value);
            ParseLine(line) == said && ParseLine(line[..|line| - 1]) == said
  {
    hide ParseLine, CleanPair, NoComment;
    var line := Printed(item);
    var body := line[..|line| - 1];
    assert line == body + "\n";
    LineEnd(body);
    match item
    case Head(name) => SectionLine(name);
    case Entry(key, value) => PairLine(key, value);
  }

  /** What the parser takes of a printed item first: all of it, or all but the newline of a full line. */
  lemma ItemChunk(item: Item, more: string)
    requires CleanItem(item)
    ensures var line := Printed(item);
            var k := if LinesOf(item) == 2 then |line| - 1 else |line|;
            && ChunkLength(line + more) == k
            && (line + more)[..k] == line[..k] && (line + more)[k..] == line[k..] + more
            && CText(line[..k]) == line[..k]
  {
    hide CleanPair, NoComment, Find;
    var line := Printed(item);
    var k := if LinesOf(item) == 2 then |line| - 1 else |line|;
    var body := line[..|line| - 1];
    assert line == body + "\n";
    assert '\n' !in body && '\0' !in line;
    assert (line + more)[..|body|] == body && (line + more)[|body|] == '\n';
    FindExact(line + more, '\n', |body|);
    FindExact(line[..k], '\0', k);
    assert line[..k][..k] == line[..k];
    assert line[..|line|] == line;
  }

  lemma NewlineChunk(more: string)
    ensures var s := "\n" + more; ChunkLength(s) == 1 && CText(s[..1]) == "\n" && s[1..] == more
    ensures ParseLine("\n") == Nothing && !HasBom("\n")
  {
    var s := "\n" + more;
    FindExact(s, '\n', 0);
    assert s[..1] == "\n" && "\n"[1..] == "";
    FindExact("\n", '\0', 1);
    assert "\n"[..0] == "" && RStrip("\n") == RStrip("") == "";
  }

  /** The effect of one printed item. */
  function OneItem(h: Handler, p: Progress, item: Item): Progress {
    match item
    case Head(name) => p.(lineno := p.lineno + 1, section := name)
    case Entry(key, value) =>
      var calls := p.calls + [Call(p.section, key, value)];
      if h(calls) then p.(lineno := p.lineno + LinesOf(item), calls := calls)
      else p.(lineno := p.lineno + 1, calls := calls, error := p.lineno + 1)
  }

  /** One turn of the parser. */
  lemma OneChunk(h: Handler, p: Progress, file: string)
    requires file != "" && p.error == 0
    ensures var k, q := ChunkLength(file), p.(lineno := p.lineno + 1);
            ParseFile(h, p, file) ==
            ParseFile(h, Apply(h, q, ParseLine(WithoutBom(CText(file[..k]), q.lineno))), file[k..])
  {
    hide ChunkLength, CText, ParseLine, WithoutBom, Apply;
  }

  lemma ItemEffect(h: Handler, p: Progress, item: Item, more: string)
    requires CleanItem(item) && !LosesBom(p, item) && p.error == 0
    ensures var m := OneItem(h, p, item);
            ParseFile(h, p, Printed(item) + more) == if m.error != 0 then m else ParseFile(h, m, more)
  {
    hide CleanItem, ChunkLength, CText, ParseLine, ParseFile, Printed, HasBom, Apply;
    var line := Printed(item);
    var k := if LinesOf(item) == 2 then |line| - 1 else |line|;
    PrintedShape(item);
    ItemSays(item);
    ItemChunk(item, more);
    assert line[..|line|] == line;
    OneChunk(h, p, line + more);
    var q := p.(lineno := p.lineno + 1);
    var m := Apply(h, q, if item.Head? then Section(item.name) else Pair(item.key, item.value));
    assert ParseFile(h, p, line + more) == ParseFile(h, m, line[k..] + more);
    SectionFits(item);
    OneItemIs(h, p, item, m);
    ItemRest(h, m, item, more);
  }

  lemma OneItemIs(h: Handler, p: Progress, item: Item, m: Progress)
    requires p.error == 0 && (item.Head? ==> CutName(item.name) == item.name)
    requires m == Apply(h, p.(lineno := p.lineno + 1),
                        if item.Head? then Section(item.name) else Pair(item.key, item.value))
    ensures m.lineno > 0
    ensures OneItem(h, p, item) ==
            if m.error == 0 && LinesOf(item) == 2 then m.(lineno := m.lineno + 1) else m
  {
  }

  /** What is left of the line of an item: nothing, or a newline. */
  lemma ItemRest(h: Handler, m: Progress, item: Item, more: string)
    requires m.lineno > 0
    ensures var line := Printed(item);
            var k := if LinesOf(item) == 2 then |line| - 1 else |line|;
            ParseFile(h, m, line[k..] + more) ==
            if m.error != 0 then m
            else ParseFile(h, if LinesOf(item) == 2 then m.(lineno := m.lineno + 1) else m, more)
  {
    hide ChunkLength, CText, ParseLine, ParseFile, Printed, HasBom;
    var line := Printed(item);
    PrintedShape(item);
    if m.error != 0 {
      Ended(h, m, line[if LinesOf(item) == 2 then |line| - 1 else |line|..] + more);
    } else if LinesOf(item) == 2 {
      NewlineChunk(more);
      OneChunk(h, m, "\n" + more);
    } else {
      assert line[|line|..] + more == more;
    }
  }

  lemma PrintedShape(item: Item)
    ensures var line := Printed(item);
            |line| >= 2 && line[|line| - 1..] == "\n" && (LinesOf(item) == 2 ==> |line| == INI_MAX_LINE)
    ensures forall k :: 3 <= k <= |Printed(item)| ==> (HasBom(Printed(item)[..k]) <==> HasBom(Printed(item)))
  {
  }

  lemma Ended(h: Handler, p: Progress, file: string)
    requires file == "" || p.error != 0
    ensures ParseFile(h, p, file) == p
  {
  }

  lemma SectionFits(item: Item)
    requires CleanItem(item)
    ensures item.Head? ==> CutName(item.name) == item.name
  {
  }

  // ---- any file

  /** A newline at most at the end, no null character, and no more than the line buffer holds. */
  predicate IsLine(s: string) {
    '\0' !in s && |s| < INI_MAX_LINE && forall i :: 0 <= i < |s| - 1 ==> s[i] != '\n'
  }

  lemma ChunkIsLine(file: string, lineno: nat)
    requires file != ""
    ensures IsLine(WithoutBom(CText(file[..ChunkLength(file)]), lineno))
  {
    hide Find;
    var k := ChunkLength(file);
    var c := file[..k];
    var n := Find(file, '\n');
    forall i | 0 <= i < k - 1
      ensures c[i] != '\n'
    {
      assert file[..n][i] in file[..n];
    }
    var t := CText(c);
    assert |t| >= 3 ==> forall x :: x in t[3..] ==> x in t;
  }

  /** What is left of a line without white space around it is one line. */
  lemma StrippedLine(line: string)
    requires IsLine(line)
    ensures var s := LSkip(RStrip(line)); OneLine(s) && |s| <= |line|
  {
    hide LSkip, RStrip, OneLine;
    var r := RStrip(line);
    RStripFacts(line);
    LSkipFacts(r);
    StrippedEnd(line, r);
    OneLineEnd(r, |r| - |LSkip(r)|);
  }

  lemma StrippedEnd(line: string, r: string)
    requires IsLine(line) && r <= line && (r == "" || !IsSpace(r[|r| - 1]))
    ensures OneLine(r)
  {
    forall i | 0 <= i < |r|
      ensures r[i] != '\n' && r[i] != '\0'
    {
      assert r[i] == line[i] && line[i] in line;
    }
  }

  lemma OneLineEnd(r: string, k: nat)
    requires k <= |r| && OneLine(r)
    ensures OneLine(r[k..])
  {
    assert forall c :: c in r[k..] ==> c in r;
  }

  lemma ValueFits(text: string)
    ensures |ValueOf(text)| <= |text| && forall c :: c in ValueOf(text) ==> c in text
  {
    hide LSkip, RStrip, FindCharOrComment;
    var v := LSkip(text);
    LSkipFacts(text);
    RStripFacts(v[..FindCharOrComment(v, None)]);
  }

  lemma PairFits(line: string)
    requires IsLine(line) && ParseLine(line).Pair?
    ensures var said := ParseLine(line); FitPair(said.key, said.value) && |said.key| + |said.value| + 1 <= |line|
  {
    hide LSkip, RStrip, FindCharOrComment, Separator, ValueOf, CleanPair;
    StrippedLine(line);
    PairIsClean(line);
    var s := LSkip(RStrip(line));
    var e := Separator(s);
    RStripFacts(s[..e]);
    ValueFits(s[e + 1..]);
    assert forall c :: c in s[..e] || c in s[e + 1..] ==> c in s;
  }

  lemma SectionFit(line: string)
    requires IsLine(line) && ParseLine(line).Section?
    ensures FitSection(CutName(ParseLine(line).name))
  {
    hide LSkip, RStrip, FindFrom, CommentAt;
    StrippedLine(line);
    var s := LSkip(RStrip(line));
    var t := s[1..];
    FindFacts(t, Some(']'), 0);
    var name := CutName(ParseLine(line).name);
    forall i: nat | i < |name|
      ensures name[i] != ']' && !CommentAt(name, i)
    {
      assert !StopsAt(t, Some(']'), i) && name[i] == t[i];
      SameComment(t, name, i);
    }
    assert forall c :: c in name ==> c in s;
  }

  lemma SameComment(t: string, name: string, i: nat)
    requires name <= t && i < |name|
    ensures CommentAt(name, i) <==> CommentAt(t, i)
  {
  }

  /** What the parser makes of any file: pairs and sections that print and read back, and nothing else. */
  ghost predicate SaysFit(p: Progress, r: Progress) {
    && p.calls <= r.calls
    && (forall i :: |p.calls| <= i < |r.calls| ==> FitPair(r.calls[i].key, r.calls[i].value))
    && (FitSection(p.section) ==>
          FitSection(r.section) && forall i :: |p.calls| <= i < |r.calls| ==> FitSection(r.calls[i].section))
  }

  lemma SaysFitBefore(p: Progress, m: Progress, r: Progress)
    requires SaysFit(m, r)
    requires m.section == p.section || FitSection(m.section)
    requires || m.calls == p.calls
             || (|m.calls| == |p.calls| + 1 && p.calls < m.calls && var c := m.calls[|p.calls|];
                 FitPair(c.key, c.value) && c.section == p.section)
    ensures SaysFit(p, r)
  {
    hide FitPair, FitSection;
    assert forall i :: |p.calls| <= i < |m.calls| ==> r.calls[i] == m.calls[i];
  }

  lemma {:induction false} FileSaysFit(h: Handler, p: Progress, file: string)
    ensures SaysFit(p, ParseFile(h, p, file))
    decreases |file|
  {
    hide ParseLine, CutName, FitPair, FitSection, ChunkLength, CText, WithoutBom, IsLine;
    if file != "" && p.error == 0 {
      hide ParseFile;
      var k, q := ChunkLength(file), p.(lineno := p.lineno + 1);
      var line := WithoutBom(CText(file[..k]), q.lineno);
      ChunkIsLine(file, q.lineno);
      OneChunk(h, p, file);
      if ParseLine(line).Pair? {
        PairFits(line);
      } else if ParseLine(line).Section? {
        SectionFit(line);
      }
      var m := Apply(h, q, ParseLine(line));
      FileSaysFit(h, m, file[k..]);
      SaysFitBefore(p, m, ParseFile(h, m, file[k..]));
    } else {
      Ended(h, p, file);
    }
  }

  // ---- what reads back

  /** The printed item alone gives its own call or section, and no error. */
  ghost predicate ReadsBack(h: Handler, p: Progress, item: Item) {
    var r := ParseFile(h, p, Printed(item));
    && r.error == 0
    && r.calls == p.calls + CallsOf(p.section, [item])
    && r.section == LastSection(p.section, [item])
  }

  lemma OnlyItem(section: string, item: Item)
    ensures LastSection(section, [item]) == if item.Head? then item.name else section
    ensures CallsOf(section, [item]) == if item.Head? then [] else [Call(section, item.key, item.value)]
  {
    assert [item][1..] == [];
  }

  /**
   * A handler that accepts its calls gets a printed item back exactly if it is within the limits and keeps its
   * beginning.
   */
  lemma ReadBackIff(h: Handler, p: Progress, item: Item)
    requires p.error == 0 && forall calls :: h(calls)
    ensures ReadsBack(h, p, item) <==> CleanItem(item) && !LosesBom(p, item)
  {
    hide CleanItem, ParseFile, HasBom, Printed, ReadsBack;
    if CleanItem(item) && !LosesBom(p, item) {
      CleanReadsBack(h, p, item);
    }
    if ReadsBack(h, p, item) {
      ReadBackIsClean(h, p, item);
      if LosesBom(p, item) {
        BomDoesNotReadBack(h, p, item);
      }
    }
  }

  lemma CleanReadsBack(h: Handler, p: Progress, item: Item)
    requires p.error == 0 && (forall calls :: h(calls)) && CleanItem(item) && !LosesBom(p, item)
    ensures ReadsBack(h, p, item)
  {
    hide CleanItem, ParseFile, HasBom, Printed;
    ItemEffect(h, p, item, "");
    assert Printed(item) + "" == Printed(item);
    Ended(h, OneItem(h, p, item), "");
    OnlyItem(p.section, item);
    assert p.calls + [] == p.calls;
  }

  lemma ReadBackIsClean(h: Handler, p: Progress, item: Item)
    requires p.error == 0 && ReadsBack(h, p, item)
    ensures CleanItem(item)
  {
    hide ParseFile, FitPair, FitSection;
    OnlyItem(p.section, item);
    match item
    case Entry(key, value) =>
      FileSaysFit(h, p, Printed(item));
      assert ParseFile(h, p, Printed(item)).calls[|p.calls|] == Call(p.section, key, value);
    case Head(name) => HeadIsFit(h, p, name);
  }

  lemma HeadIsFit(h: Handler, p: Progress, name: string)
    requires p.error == 0 && ParseFile(h, p, Printed(Head(name))).error == 0
    ensures FitSection(ParseFile(h, p, Printed(Head(name))).section)
  {
    hide ParseFile, ParseLine, FitPair, FitSection, ChunkLength, CText, HasBom, IsLine, CutName;
    var file := Printed(Head(name));
    var k, q := ChunkLength(file), p.(lineno := p.lineno + 1);
    var line := WithoutBom(CText(file[..k]), q.lineno);
    OneChunk(h, p, file);
    ChunkIsLine(file, q.lineno);
    Bracket(file, q.lineno);
    var m := Apply(h, q, ParseLine(line));
    if ParseLine(line).Malformed? {
      Ended(h, m, file[k..]);
    } else {
      SectionFit(line);
      FileSaysFit(h, m, file[k..]);
    }
  }

  /** A line that starts with a bracket is a section or an error. */
  lemma Bracket(file: string, lineno: nat)
    requires file != "" && file[0] == '['
    ensures var said := ParseLine(WithoutBom(CText(file[..ChunkLength(file)]), lineno));
            said.Section? || said.Malformed?
  {
    hide Find, FindCharOrComment, RStrip;
    var c := file[..ChunkLength(file)];
    var t := CText(c);
    assert Find(c, '\0') > 0 && t[0] == '[' && !HasBom(t);
    RStripFacts(t);
  }

  lemma BomDoesNotReadBack(h: Handler, p: Progress, item: Item)
    requires p.error == 0 && (forall calls :: h(calls)) && CleanItem(item) && LosesBom(p, item)
    ensures !ReadsBack(h, p, item)
  {
    hide ParseFile, ParseLine, CleanPair, CText, IsLine, ChunkLength, NoComment;
    var line := Printed(item);
    var k, q := ChunkLength(line), p.(lineno := p.lineno + 1);
    ItemChunk(item, "");
    assert line + "" == line;
    OneChunk(h, p, line);
    ChunkIsLine(line, q.lineno);
    PrintedShape(item);
    var t := line[..k][3..];
    assert WithoutBom(CText(line[..k]), q.lineno) == t;
    if ParseLine(t).Pair? {
      PairFits(t);
    }
    var m := Apply(h, q, ParseLine(t));
    if m.error != 0 || k == |line| {
      Ended(h, m, line[k..]);
    } else {
      NewlineChunk("");
      assert line[k..] == "\n" + "" == "\n";
      OneChunk(h, m, "\n");
      Ended(h, m.(lineno := m.lineno + 1), "");
    }
    OnlyItem(p.section, item);
    var wanted := p.calls + [Call(p.section, item.key, item.value)];
    assert m.calls == wanted ==> m.calls[|p.calls|] == Call(p.section, item.key, item.value);
  }

  /** A section name of 50 characters or more, if the line fits, is cut to 49. */
  lemma SectionIsCut(h: Handler, p: Progress, name: string)
    requires p.error == 0 && OneLine(name) && ']' !in name && NoComment(name)
    requires MAX_SECTION <= |name| < INI_MAX_LINE - 3
    ensures ParseFile(h, p, Printed(Head(name))) ==
            p.(lineno := p.lineno + 1, section := name[..MAX_SECTION - 1])
  {
    hide ParseFile, ParseLine, NoComment, Find;
    var line := Printed(Head(name));
    var body := line[..|line| - 1];
    assert '\n' !in body && '\0' !in line && line[|body|] == '\n';
    FindExact(line, '\n', |body|);
    FindExact(line, '\0', |line|);
    assert line[..|line|] == line && line[|line|..] == "";
    SectionLine(name);
    OneChunk(h, p, line);
    Ended(h, p.(lineno := p.lineno + 1, section := name[..MAX_SECTION - 1]), "");
  }

  /** A newline in a value ends the pair, and the rest of the value is a line of its own, here a malformed one. */
  lemma NewlineEndsPair(h: Handler, p: Progress)
    requires p.error == 0 && forall calls :: h(calls)
    ensures ParseFile(h, p, Printed(Entry("k", "a\nb"))) ==
            p.(lineno := p.lineno + 2, calls := p.calls + [Call(p.section, "k", "a")], error := p.lineno + 2)
  {
    hide ParseFile, ParseLine, CleanItem, Printed, HasBom;
    var m := OneItem(h, p, Entry("k", "a"));
    ShortPair();
    assert Printed(Entry("k", "a\nb")) == Printed(Entry("k", "a")) + "b\n";
    ItemEffect(h, p, Entry("k", "a"), "b\n");
    OneChunk(h, m, "b\n");
    Ended(h, m.(lineno := m.lineno + 1, error := m.lineno + 1), "");
  }

  lemma ShortPair()
    ensures CleanItem(Entry("k", "a")) && !HasBom(Printed(Entry("k", "a"))) && LinesOf(Entry("k", "a")) == 1
    ensures Printed(Entry("k", "a\nb")) == Printed(Entry("k", "a")) + "b\n"
    ensures ChunkLength("b\n") == 2 && CText("b\n"[..2]) == "b\n" && "b\n"[2..] == "" && !HasBom("b\n")
    ensures ParseLine("b\n").Malformed?
  {
    assert "b\n"[..2] == "b\n";
    FindExact("b\n", '\n', 1);
    FindExact("b\n", '\0', 2);
    LineEnd("b");
    assert "b" + "\n" == "b\n";
    NoSeparator();
  }

  lemma NoSeparator()
    ensures ParseLine("b").Malformed?
  {
    assert RStrip("b") == "b" && LSkip("b") == "b";
    FoundAt("b", Some('='), 1);
    FoundAt("b", Some(':'), 1);
  }

  // ---- a list of items

  /**
   * What is to come of items behind p: the handler gets exactly their triples, in order. If it accepts all of them
   * there is no error; otherwise the call for item k, the first it rejects, is the last, and the first line of that
   * item is the error.
   */
  ghost predicate Told(h: Handler, p: Progress, items: seq<Item>, r: Progress, k: nat) {
    var all := p.calls + CallsOf(p.section, items);
    && p.calls <= r.calls <= all
    && (forall n :: |p.calls| < n <= |r.calls| ==> (h(all[..n]) <==> r.error == 0 || n < |r.calls|))
    && (if r.error == 0 then
          k == |items| && r == Progress(LastSection(p.section, items), all, p.lineno + LineCount(items), 0)
        else
          && k < |items| && items[k].Entry?
          && p.calls < r.calls == p.calls + CallsOf(p.section, items[..k + 1])
          && r.error == r.lineno == p.lineno + LineCount(items[..k]) + 1)
  }

  /** Parsing back a printed list of items tells the handler these items, up to the first call it rejects. */
  lemma {:induction false} RoundTrip(h: Handler, p: Progress, items: seq<Item>) returns (k: nat)
    requires p.error == 0
    requires forall i :: 0 <= i < |items| ==> CleanItem(items[i])
    requires items != [] ==> !LosesBom(p, items[0])
    ensures Told(h, p, items, ParseFile(h, p, Print(items)), k)
    decreases |items|
  {
    hide CleanItem, ParseFile, HasBom, Printed, OneItem;
    k := 0;
    if items == [] {
      NothingTold(h, p);
    } else {
      hide Told;
      var more := Print(items[1..]);
      ItemEffect(h, p, items[0], more);
      var m := OneItem(h, p, items[0]);
      LaterLine(h, p, items[0]);
      if m.error == 0 {
        k := RoundTrip(h, m, items[1..]);
        ToldBefore(h, p, items, ParseFile(h, m, more), k);
        k := k + 1;
      } else {
        ToldRejected(h, p, items);
      }
    }
  }

  lemma NothingTold(h: Handler, p: Progress)
    requires p.error == 0
    ensures Told(h, p, [], ParseFile(h, p, ""), 0)
  {
    assert p.calls + [] == p.calls;
  }

  lemma LaterLine(h: Handler, p: Progress, item: Item)
    ensures OneItem(h, p, item).lineno > 0
  {
  }

  lemma ToldBefore(h: Handler, p: Progress, items: seq<Item>, r: Progress, k: nat)
    requires items != [] && p.error == 0 && OneItem(h, p, items[0]).error == 0
    requires Told(h, OneItem(h, p, items[0]), items[1..], r, k)
    ensures Told(h, p, items, r, k + 1)
  {
    hide CallsOf;
    var m, rest := OneItem(h, p, items[0]), items[1..];
    FirstCalls(h, p, items[0], rest);
    assert [items[0]] + rest == items;
    assert LastSection(p.section, items) == LastSection(m.section, rest);
    AcceptedSoFar(h, p.calls, m.calls, p.calls + CallsOf(p.section, items));
    if r.error != 0 {
      FirstCalls(h, p, items[0], rest[..k + 1]);
      assert items[..k + 2] == [items[0]] + rest[..k + 1];
      assert items[..k + 1][1..] == rest[..k];
    }
  }

  lemma ToldRejected(h: Handler, p: Progress, items: seq<Item>)
    requires items != [] && p.error == 0 && OneItem(h, p, items[0]).error != 0
    ensures Told(h, p, items, OneItem(h, p, items[0]), 0)
  {
    var m := OneItem(h, p, items[0]);
    FirstCalls(h, p, items[0], []);
    FirstCalls(h, p, items[0], items[1..]);
    assert items[..1] == [items[0]] + [] && [items[0]] + items[1..] == items;
    var all := p.calls + CallsOf(p.section, items);
    assert m.calls + [] == m.calls && all[..|m.calls|] == m.calls;
  }

  /** What one item adds to the calls of the items behind it. */
  lemma FirstCalls(h: Handler, p: Progress, item: Item, more: seq<Item>)
    ensures var m := OneItem(h, p, item);
            m.calls + CallsOf(m.section, more) == p.calls + CallsOf(p.section, [item] + more)
  {
    hide CallsOf;
    var m := OneItem(h, p, item);
    CallsOfCons(p.section, item, more);
    if item.Entry? {
      Associate(p.calls, [Call(p.section, item.key, item.value)], CallsOf(p.section, more));
    }
  }

  lemma CallsOfCons(section: string, item: Item, more: seq<Item>)
    ensures CallsOf(section, [item] + more) ==
            if item.Head? then CallsOf(item.name, more)
            else [Call(section, item.key, item.value)] + CallsOf(section, more)
  {
    assert ([item] + more)[1..] == more;
  }

  lemma AcceptedSoFar(h: Handler, before: seq<Call>, after: seq<Call>, all: seq<Call>)
    requires before <= after <= all && |after| <= |before| + 1 && (after == before || h(after))
    ensures forall k :: |before| < k <= |after| ==> h(all[..k])
  {
    assert all[..|after|] == after;
  }
}
