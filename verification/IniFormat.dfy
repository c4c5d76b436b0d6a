/** The ini format as the parser reads it: one line at a time, then a whole file. */
module IniFormat {
  import opened Prelude

  function RStrip(s: string): (r: string)
    ensures |r| <= |s|
  {
    if s != "" && IsSpace(s[|s| - 1]) then RStrip(s[..|s| - 1]) else s
  }

  lemma {:induction false} RStripFacts(s: string)
    ensures var r := RStrip(s);
            r <= s && (r == "" || !IsSpace(r[|r| - 1])) && forall i :: |r| <= i < |s| ==> IsSpace(s[i])
    decreases |s|
  {
    if s != "" && IsSpace(s[|s| - 1]) {
      RStripFacts(s[..|s| - 1]);
    }
  }

  function LSkip(s: string): (r: string)
    ensures |r| <= |s|
  {
    if s != "" && IsSpace(s[0]) then LSkip(s[1..]) else s
  }

  lemma {:induction false} LSkipFacts(s: string)
    ensures var r := LSkip(s);
            r == s[|s| - |r|..] && (r == "" || !IsSpace(r[0])) && forall i :: 0 <= i < |s| - |r| ==> IsSpace(s[i])
    decreases |s|
  {
    if s != "" && IsSpace(s[0]) {
      LSkipFacts(s[1..]);
    }
  }

  /** s[i] starts a comment: a ';' behind white space. */
  predicate CommentAt(s: string, i: nat) {
    0 < i < |s| && s[i] == ';' && IsSpace(s[i - 1])
  }

  /** The scan stops here: at c (none for the null character) or at a comment. */
  predicate StopsAt(s: string, c: Option<char>, i: nat) {
    i < |s| && (Some(s[i]) == c || CommentAt(s, i))
  }

  function FindCharOrComment(s: string, c: Option<char>): (k: nat)
    ensures k <= |s|
  {
    FindFrom(s, c, 0)
  }

  function FindFrom(s: string, c: Option<char>, from: nat): (k: nat)
    requires from <= |s|
    ensures from <= k <= |s|
    decreases |s| - from
  {
    if from == |s| || StopsAt(s, c, from) then from else FindFrom(s, c, from + 1)
  }

  lemma {:induction false} FindFacts(s: string, c: Option<char>, from: nat)
    requires from <= |s|
    ensures var k := FindFrom(s, c, from);
            (forall i: nat :: from <= i < k ==> !StopsAt(s, c, i)) && (k < |s| ==> StopsAt(s, c, k))
    decreases |s| - from
  {
    if from < |s| && !StopsAt(s, c, from) {
      FindFacts(s, c, from + 1);
    }
  }

  lemma FoundAt(s: string, c: Option<char>, k: nat)
    requires k <= |s| && (forall i: nat :: i < k ==> !StopsAt(s, c, i)) && (k < |s| ==> StopsAt(s, c, k))
    ensures FindCharOrComment(s, c) == k
  {
    FindFacts(s, c, 0);
    var f := FindCharOrComment(s, c);
    assert f < |s| ==> StopsAt(s, c, f);
  }

  /** What a line says. */
  datatype Line = Nothing | Section(name: string) | Pair(key: string, value: string) | Malformed

  function ParseLine(line: string): Line {
    var s := LSkip(RStrip(line));
    if s == "" || s[0] == ';' || s[0] == '#' then Nothing
    else if s[0] == '[' then
      var t := s[1..];
      var e := FindCharOrComment(t, Some(']'));
      if e < |t| && t[e] == ']' then Section(t[..e]) else Malformed
    else
      var e := Separator(s);
      if e < |s| && (s[e] == '=' || s[e] == ':') then Pair(RStrip(s[..e]), ValueOf(s[e + 1..])) else Malformed
  }

  /** The first '=', or if there is none before a comment, the first ':'. */
  function Separator(s: string): (e: nat)
    ensures e <= |s|
  {
    var e := FindCharOrComment(s, Some('='));
    if e < |s| && s[e] == '=' then e else FindCharOrComment(s, Some(':'))
  }

  /** The value loses the white space around it and a comment behind it. */
  function ValueOf(text: string): string {
    var v := LSkip(text);
    RStrip(v[..FindCharOrComment(v, None)])
  }

  // ---- which pairs and sections a line can say

  predicate Trimmed(s: string) {
    s == "" || (!IsSpace(s[0]) && !IsSpace(s[|s| - 1]))
  }

  predicate NoComment(s: string) {
    forall i :: 0 < i < |s| ==> !CommentAt(s, i)
  }

  predicate CleanPair(key: string, value: string) {
    && Trimmed(key) && Trimmed(value) && NoComment(key) && NoComment(value)
    && '=' !in key && (key == "" || (key[0] != ';' && key[0] != '#' && key[0] != '['))
  }

  lemma {:induction false} StripExact(s: string, blank: string)
    requires (s == "" || !IsSpace(s[|s| - 1])) && forall i :: 0 <= i < |blank| ==> IsSpace(blank[i])
    ensures RStrip(s + blank) == s
    decreases |blank|
  {
    if blank == "" {
      assert s + blank == s;
    } else {
      assert (s + blank)[..|s + blank| - 1] == s + blank[..|blank| - 1];
      StripExact(s, blank[..|blank| - 1]);
    }
  }

  lemma SkipExact(s: string)
    requires s == "" || !IsSpace(s[0])
    ensures LSkip(s) == s
  {
  }

  /** Printing a pair on a line and parsing the line gives the pair exactly when it is clean. */
  lemma PairLine(key: string, value: string)
    ensures ParseLine(key + "=" + value + "\n") == Pair(key, value) <==> CleanPair(key, value)
  {
    var line := key + "=" + value;
    assert line + "\n" == key + "=" + value + "\n";
    if CleanPair(key, value) {
      CleanPairParses(key, value);
    }
    if ParseLine(line + "\n") == Pair(key, value) {
      ParsedPairIsClean(key, value);
    }
  }

  lemma CleanPairParses(key: string, value: string)
    requires CleanPair(key, value)
    ensures ParseLine(key + "=" + value + "\n") == Pair(key, value)
  {
    hide LSkip, RStrip, FindCharOrComment, CleanPair, Separator, ValueOf;
    var s := key + "=" + value;
    CleanLine(key, value);
    assert s[..|key|] == key && s[|key| + 1..] == value;
  }

  lemma CleanLine(key: string, value: string)
    requires CleanPair(key, value)
    ensures var s := key + "=" + value;
            && LSkip(RStrip(s + "\n")) == s
            && s[0] != ';' && s[0] != '#' && s[0] != '['
            && Separator(s) == |key| && s[|key|] == '='
            && RStrip(key) == key && ValueOf(value) == value
  {
    hide LSkip, RStrip, FindCharOrComment;
    var s := key + "=" + value;
    assert s[|s| - 1] == if value == "" then '=' else value[|value| - 1];
    assert s[0] == if key == "" then '=' else key[0];
    StripExact(s, "\n");
    SkipExact(s);
    CleanSeparator(key, value);
    StripExact(key, "");
    assert key + "" == key;
    CleanValue(value);
  }

  lemma CleanSeparator(key: string, value: string)
    requires NoComment(key) && '=' !in key
    ensures var s := key + "=" + value; s[|key|] == '=' && FindCharOrComment(s, Some('=')) == |key|
  {
    hide FindCharOrComment;
    var s := key + "=" + value;
    forall i: nat | i < |key|
      ensures !StopsAt(s, Some('='), i)
    {
      assert s[i] == key[i] && (i > 0 ==> s[i - 1] == key[i - 1]);
      assert key[i] in key;
      assert !CommentAt(key, i);
    }
    FoundAt(s, Some('='), |key|);
  }

  lemma CleanValue(value: string)
    requires Trimmed(value) && NoComment(value)
    ensures ValueOf(value) == value
  {
    hide FindCharOrComment, LSkip, RStrip;
    SkipExact(value);
    forall i: nat | i < |value|
      ensures !StopsAt(value, None, i)
    {
      assert !CommentAt(value, i);
    }
    FoundAt(value, None, |value|);
    assert value[..|value|] == value && value + "" == value;
    StripExact(value, "");
  }

  lemma ParsedPairIsClean(key: string, value: string)
    requires ParseLine(key + "=" + value + "\n") == Pair(key, value)
    ensures CleanPair(key, value)
  {
    PairIsClean(key + "=" + value + "\n");
  }

  /** Whatever line is parsed, the key and the value of a pair are clean. */
  lemma PairIsClean(line: string)
    requires ParseLine(line).Pair?
    ensures CleanPair(ParseLine(line).key, ParseLine(line).value)
  {
    hide FindCharOrComment, RStrip, LSkip, Separator, ValueOf, NoComment;
    var s := LSkip(RStrip(line));
    LSkipFacts(RStrip(line));
    var e := Separator(s);
    ValueIsClean(s[e + 1..]);
    KeyIsClean(s, e);
  }

  lemma ValueIsClean(text: string)
    ensures Trimmed(ValueOf(text)) && NoComment(ValueOf(text))
  {
    hide LSkip, RStrip, FindFrom;
    var v := LSkip(text);
    var k := FindCharOrComment(v, None);
    var r := RStrip(v[..k]);
    LSkipFacts(text);
    FindFacts(v, None, 0);
    RStripFacts(v[..k]);
    PrefixClean(v, k, r, None);
  }

  lemma PrefixClean(s: string, k: nat, r: string, c: Option<char>)
    requires k <= |s| && r <= s[..k] && (s == "" || !IsSpace(s[0])) && (r == "" || !IsSpace(r[|r| - 1]))
    requires forall i: nat :: i < k ==> !StopsAt(s, c, i)
    ensures Trimmed(r) && NoComment(r) && (c.Some? ==> c.value !in r)
  {
    forall i: nat | i < |r|
      ensures r[i] == s[i] && Some(r[i]) != c && !CommentAt(r, i)
    {
      assert r[i] == s[..k][i];
      assert i > 0 ==> r[i - 1] == s[..k][i - 1];
      assert !StopsAt(s, c, i);
    }
  }

  lemma KeyIsClean(s: string, e: nat)
    requires s != "" && !IsSpace(s[0]) && s[0] != ';' && s[0] != '#' && s[0] != '['
    requires e == Separator(s) < |s| && (s[e] == '=' || s[e] == ':')
    ensures CleanPair(RStrip(s[..e]), "")
  {
    hide RStrip, FindFrom;
    var r := RStrip(s[..e]);
    RStripFacts(s[..e]);
    FindFacts(s, Some('='), 0);
    FindFacts(s, Some(':'), 0);
    var q := FindCharOrComment(s, Some('='));
    assert q < |s| ==> StopsAt(s, Some('='), q) && (CommentAt(s, q) ==> StopsAt(s, Some(':'), q));
    assert e <= q;
    PrefixClean(s, e, r, Some('='));
    assert r != "" ==> r[0] == s[..e][0];
  }

  /** A section line gives its name exactly when the name holds no ']' and no comment. */
  lemma SectionLine(name: string)
    ensures ParseLine("[" + name + "]\n") == Section(name) <==> ']' !in name && NoComment(name)
  {
    hide RStrip, LSkip, FindFrom;
    var s := "[" + name + "]";
    assert s + "\n" == "[" + name + "]\n";
    StripExact(s, "\n");
    SkipExact(s);
    var t := name + "]";
    assert s[1..] == t && s[0] == '[';
    var e := FindCharOrComment(t, Some(']'));
    FindFacts(t, Some(']'), 0);
    assert t[..|name|] == name;
    forall i: nat | i < |name|
      ensures StopsAt(t, Some(']'), i) <==> name[i] == ']' || CommentAt(name, i)
    {
      assert t[i] == name[i] && (i > 0 ==> t[i - 1] == name[i - 1]);
    }
    if ']' !in name && NoComment(name) {
      assert forall i: nat :: i < |name| ==> name[i] in name && !StopsAt(t, Some(']'), i);
      FoundAt(t, Some(']'), |name|);
    }
    if t[..e] == name {
      assert e == |name|;
      assert forall i: nat :: i < |name| ==> !StopsAt(t, Some(']'), i);
    }
  }

  // ---- a file

  datatype Call = Call(section: string, key: string, value: string)

  /** The current section, the handler calls so far, the line number and the error. */
  datatype Progress = Progress(section: string, calls: seq<Call>, lineno: nat, error: nat)

  /** Whether the handler accepts the last of its calls. */
  type Handler = seq<Call> -> bool

  const MAX_SECTION := 50
  const INI_MAX_LINE := 512

  /** A section name is cut to the size of its buffer. */
  function CutName(name: string): string {
    if |name| < MAX_SECTION then name else name[..MAX_SECTION - 1]
  }

  function Apply(h: Handler, p: Progress, line: Line): Progress {
    match line
    case Nothing => p
    case Section(name) => p.(section := CutName(name))
    case Malformed => p.(error := p.lineno)
    case Pair(key, value) =>
      var calls := p.calls + [Call(p.section, key, value)];
      p.(calls := calls, error := if h(calls) then p.error else p.lineno)
  }

  /** How many characters fgets takes: a line with its newline, or as many as fit, or the rest. */
  function ChunkLength(file: string): (k: nat)
    requires file != ""
    ensures 0 < k <= |file| && k < INI_MAX_LINE
  {
    var k := Find(file, '\n');
    Min(INI_MAX_LINE - 1, if k < |file| then k + 1 else k)
  }

  /** The text of a C string: up to its first null character. */
  function CText(s: string): string {
    s[..Find(s, '\0')]
  }

  predicate HasBom(line: string) {
    |line| >= 3 && line[0] as int == 0xEF && line[1] as int == 0xBB && line[2] as int == 0xBF
  }

  /** The first line loses a byte order mark. */
  function WithoutBom(line: string, lineno: nat): string {
    if lineno == 1 && HasBom(line) then line[3..] else line
  }

  /** ini_parse_file_core, which stops at the first error. */
  function ParseFile(h: Handler, p: Progress, file: string): Progress
    decreases |file|
  {
    if file == "" || p.error != 0 then p
    else
      var k := ChunkLength(file);
      var q := p.(lineno := p.lineno + 1);
      ParseFile(h, Apply(h, q, ParseLine(WithoutBom(CText(file[..k]), q.lineno))), file[k..])
  }
}
