/** The parser itself: C strings in a line buffer that is edited in place, and a section buffer. */
module IniParser {
  import opened Prelude
  import opened IniFormat

  /** A C string with text s at index p of a buffer. */
  ghost predicate CStrAt(a: seq<char>, p: nat, s: string) {
    p + |s| < |a| && a[p..p + |s|] == s && a[p + |s|] == '\0' && '\0' !in s
  }

  lemma CharAt(a: seq<char>, p: nat, s: string, i: nat)
    requires CStrAt(a, p, s) && i <= |s|
    ensures a[p + i] == (if i < |s| then s[i] else '\0') && (a[p + i] == '\0' <==> i == |s|)
  {
    if i < |s| {
      assert a[p..p + |s|][i] == s[i];
      assert s[i] in s;
    }
  }

  lemma Suffix(a: seq<char>, p: nat, s: string, i: nat)
    requires CStrAt(a, p, s) && i <= |s|
    ensures CStrAt(a, p + i, s[i..])
  {
    assert a[p + i..p + |s|] == a[p..p + |s|][i..];
  }

  /** Cutting a C string with a null character. */
  lemma CutAt(a: seq<char>, p: nat, s: string, i: nat)
    requires CStrAt(a, p, s) && i <= |s|
    ensures CStrAt(a[p + i := '\0'], p, s[..i])
  {
    assert a[p + i := '\0'][p..p + i] == a[p..p + |s|][..i];
  }

  method StrLen(line: array<char>, p: nat, ghost s: string) returns (n: nat)
    requires CStrAt(line[..], p, s)
    ensures n == |s|
  {
    n := 0;
    CharAt(line[..], p, s, 0);
    while line[p + n] != '\0'
      invariant 0 <= n <= |s| && line[p + n] == line[..][p + n]
      decreases |s| - n
    {
      CharAt(line[..], p, s, n);
      CharAt(line[..], p, s, n + 1);
      n := n + 1;
    }
    CharAt(line[..], p, s, n);
  }

  /** rstrip: white space at the end becomes null characters. */
  method RStripAt(line: array<char>, p: nat, ghost s: string)
    requires CStrAt(line[..], p, s)
    modifies line
    ensures CStrAt(line[..], p, RStrip(s)) && line[..p] == old(line[..p])
    ensures line[p + |s|..] == old(line[p + |s|..])
  {
    var n := StrLen(line, p, s);
    ghost var t := s;
    while n > 0
      invariant n == |t| <= |s| && CStrAt(line[..], p, t) && RStrip(t) == RStrip(s)
      invariant line[..p] == old(line[..p]) && line[p + |s|..] == old(line[p + |s|..])
    {
      CharAt(line[..], p, t, n - 1);
      if !IsSpace(line[p + n - 1]) {
        break;
      }
      CutAt(line[..], p, t, n - 1);
      ghost var cut := line[..][p + n - 1 := '\0'];
      line[p + n - 1] := '\0';
      assert line[..] == cut;
      n := n - 1;
      t := t[..n];
    }
  }

  /** lskip: the index of the first character that is no white space. */
  method LSkipAt(line: array<char>, p: nat, ghost s: string) returns (q: nat)
    requires CStrAt(line[..], p, s)
    ensures q + |LSkip(s)| == p + |s| && CStrAt(line[..], q, LSkip(s))
  {
    q := p;
    ghost var t := s;
    CharAt(line[..], q, t, 0);
    while line[q] != '\0' && IsSpace(line[q])
      invariant q + |t| == p + |s| && CStrAt(line[..], q, t) && LSkip(t) == LSkip(s)
      invariant line[q] == (if t == "" then '\0' else t[0]) && (line[q] == '\0' <==> t == "")
      decreases |t|
    {
      Suffix(line[..], q, t, 1);
      q := q + 1;
      t := t[1..];
      CharAt(line[..], q, t, 0);
    }
  }

  /** find_char_or_comment; None is the null character. */
  method FindAt(line: array<char>, p: nat, c: Option<char>, ghost s: string) returns (e: nat)
    requires CStrAt(line[..], p, s) && c != Some('\0')
    ensures e == p + FindCharOrComment(s, c)
  {
    var wasWhitespace := false;
    e := p;
    CharAt(line[..], e, s, 0);
    while line[e] != '\0' && Some(line[e]) != c && !(wasWhitespace && line[e] == ';')
      invariant p <= e <= p + |s|
      invariant line[e] == (if e - p < |s| then s[e - p] else '\0') && (line[e] == '\0' <==> e - p == |s|)
      invariant wasWhitespace <==> e > p && IsSpace(s[e - p - 1])
      invariant FindFrom(s, c, 0) == FindFrom(s, c, e - p)
      decreases p + |s| - e
    {
      wasWhitespace := IsSpace(line[e]);
      e := e + 1;
      CharAt(line[..], p, s, e - p);
    }
  }

  /** strncpy0 into a buffer of MAX_SECTION characters, from a C string; the last character is never written. */
  method CopyName(section: array<char>, line: array<char>, p: nat, ghost s: string)
    requires CStrAt(line[..], p, s) && section != line
    requires section.Length == MAX_SECTION && section[MAX_SECTION - 1] == '\0'
    modifies section
    ensures CStrAt(section[..], 0, CutName(s)) && section[MAX_SECTION - 1] == '\0'
  {
    var size := MAX_SECTION - 1;
    var n := StrLen(line, p, s);
    var i := 0;
    while i < size
      modifies section
      invariant 0 <= i <= size && section[MAX_SECTION - 1] == '\0'
      invariant forall k :: 0 <= k < i ==> section[k] == (if k < |s| then s[k] else '\0')
    {
      if i < n {
        CharAt(line[..], p, s, i);
        section[i] := line[p + i];
      } else {
        section[i] := '\0';
      }
      i := i + 1;
    }
    assert section[..][0..|CutName(s)|] == CutName(s);
  }

  /** The file and what fgets does with it. */
  class File {
    var rest: string

    constructor (text: string)
      ensures rest == text
    {
      rest := text;
    }

    /** fgets(line, INI_MAX_LINE, file): false at the end of the file. */
    method Gets(line: array<char>) returns (more: bool)
      requires line.Length == INI_MAX_LINE
      modifies this, line
      ensures more <==> old(rest) != ""
      ensures more ==>
              rest == old(rest)[ChunkLength(old(rest))..] &&
              CStrAt(line[..], 0, CText(old(rest)[..ChunkLength(old(rest))]))
      ensures !more ==> rest == old(rest)
    {
      if rest == "" {
        return false;
      }
      hide ChunkLength, Find;
      var n := ChunkLength(rest);
      var i := 0;
      while i < n
        modifies line
        invariant 0 <= i <= n && forall k :: 0 <= k < i ==> line[k] == rest[k]
      {
        line[i] := rest[i];
        i := i + 1;
      }
      line[n] := '\0';
      NullFreePart(line[..], rest[..n]);
      rest := rest[n..];
      more := true;
    }
  }

  lemma NullFreePart(a: seq<char>, s: string)
    requires |s| < |a| && a[|s|] == '\0' && forall k :: 0 <= k < |s| ==> a[k] == s[k]
    ensures CStrAt(a, 0, CText(s))
  {
    var t := CText(s);
    assert a[0..|t|] == t;
  }

  class Parser {
    const section: array<char>
    var lineno: nat
    var error: nat
    var calls: seq<Call>   // what the handler has been called with
    ghost var sectionText: string

    /** The section buffer is a terminated string at all times. */
    ghost predicate Valid()
      reads this, section
    {
      section.Length == MAX_SECTION && section[MAX_SECTION - 1] == '\0' && CStrAt(section[..], 0, sectionText)
    }

    ghost function View(): Progress
      reads this
    {
      Progress(sectionText, calls, lineno, error)
    }

    constructor ()
      ensures Valid() && fresh(section) && View() == Progress("", [], 0, 0)
    {
      section := new char[MAX_SECTION](i => '\0');
      lineno, error, calls, sectionText := 0, 0, [], "";
    }

    /** The text of the section, as the handler is given it. */
    method SectionText() returns (s: string)
      requires Valid()
      ensures s == sectionText
    {
      var n := StrLen(section, 0, sectionText);
      s := section[0..n];
    }

    method Text(line: array<char>, p: nat, ghost s: string) returns (t: string)
      requires CStrAt(line[..], p, s)
      ensures t == s
    {
      var n := StrLen(line, p, s);
      t := line[p..p + n];
    }

    /** A line that starts with '['. */
    method SectionLine(line: array<char>, start: nat, ghost s: string)
      requires Valid() && line != section && CStrAt(line[..], start, s) && s != "" && s[0] == '[' && error == 0
      modifies this`error, this`sectionText, section, line
      ensures Valid()
      ensures var e := FindCharOrComment(s[1..], Some(']'));
              View() == if e < |s| - 1 && s[1..][e] == ']'
                        then old(View()).(section := CutName(s[1..][..e])) else old(View()).(error := lineno)
    {
      Suffix(line[..], start, s, 1);
      var end := FindAt(line, start + 1, Some(']'), s[1..]);
      ghost var e := end - (start + 1);
      CharAt(line[..], start + 1, s[1..], e);
      if line[end] == ']' {
        CutAt(line[..], start + 1, s[1..], e);
        ghost var cut := line[..][end := '\0'];
        line[end] := '\0';
        assert line[..] == cut;
        CopyName(section, line, start + 1, s[1..][..e]);
        sectionText := CutName(s[1..][..e]);
      } else {
        error := lineno;
      }
    }

    /** Any other line with text: a name, '=' or ':', and a value. */
    method PairLine(h: Handler, line: array<char>, start: nat, ghost s: string)
      requires Valid() && line != section && CStrAt(line[..], start, s) && s != "" && error == 0
      modifies this`error, this`calls, line
      ensures Valid()
      ensures var e := Separator(s);
              View() == Apply(h, old(View()), if e < |s| && (s[e] == '=' || s[e] == ':')
                                              then Pair(RStrip(s[..e]), ValueOf(s[e + 1..])) else Malformed)
    {
      hide RStrip, LSkip, FindCharOrComment;
      var end := FindAt(line, start, Some('='), s);
      CharAt(line[..], start, s, end - start);
      if line[end] != '=' {
        end := FindAt(line, start, Some(':'), s);
        CharAt(line[..], start, s, end - start);
      }
      ghost var e := end - start;
      assert e == Separator(s);
      if line[end] == '=' || line[end] == ':' {
        var name, value := TakePair(line, start, end, s);
        var sec := SectionText();
        calls := calls + [Call(sec, name, value)];
        if !h(calls) && error == 0 {
          error := lineno;
        }
      } else {
        error := lineno;
      }
    }

    /** The two texts around the separator at end, which becomes the end of the first one. */
    method TakePair(line: array<char>, start: nat, end: nat, ghost s: string) returns (name: string, value: string)
      requires CStrAt(line[..], start, s) && start <= end < start + |s| && line != section
      modifies line
      ensures name == RStrip(s[..end - start]) && value == ValueOf(s[end - start + 1..])
    {
      hide RStrip, LSkip, FindCharOrComment;
      ghost var e := end - start;
      Suffix(line[..], start, s, e + 1);
      CutAt(line[..], start, s, e);
      ghost var cut := line[..][end := '\0'];
      line[end] := '\0';
      assert line[..] == cut;
      Behind(cut, end + 1, s[e + 1..], old(line[..]));
      RStripAt(line, start, s[..e]);
      assert line[..][end + 1..] == cut[end + 1..];
      Behind(line[..], end + 1, s[e + 1..], cut);
      ghost var key := RStrip(s[..e]);
      var q := LSkipAt(line, end + 1, s[e + 1..]);
      ghost var before := line[..];
      value := CutValue(line, q, LSkip(s[e + 1..]));
      InFront(line[..], start, key, before, q);
      name := Text(line, start, key);
    }

    /** The value up to a comment, without white space at its end. */
    method CutValue(line: array<char>, value: nat, ghost v: string) returns (t: string)
      requires CStrAt(line[..], value, v)
      modifies line
      ensures t == RStrip(v[..FindCharOrComment(v, None)]) && line[..value] == old(line[..value])
    {
      hide RStrip, FindCharOrComment;
      var end := FindAt(line, value, None, v);
      ghost var k := end - value;
      CharAt(line[..], value, v, k);
      if line[end] == ';' {
        CutAt(line[..], value, v, k);
        ghost var cut := line[..][end := '\0'];
        line[end] := '\0';
        assert line[..] == cut && line[..value] == old(line[..value]);
      } else {
        StopsAtComment(v, k);
        assert v[..k] == v;
      }
      RStripAt(line, value, v[..k]);
      t := Text(line, value, RStrip(v[..k]));
    }

    /** The loop over the lines, which ends at the first error. */
    method Parse(h: Handler, file: File)
      requires Valid() && lineno == 0 && error == 0
      modifies this, section, file
      ensures Valid() && View() == ParseFile(h, old(View()), old(file.rest))
    {
      hide ParseLine, Apply, CStrAt;
      var line := new char[INI_MAX_LINE];
      ghost var goal := ParseFile(h, View(), file.rest);
      var more := file.Gets(line);
      ghost var left := old(file.rest);
      while more
        invariant Valid() && error == 0 && fresh(line) && line.Length == INI_MAX_LINE && (more <==> left != "")
        invariant more ==>
                  file.rest == left[ChunkLength(left)..] &&
                  CStrAt(line[..], 0, CText(left[..ChunkLength(left)]))
        invariant goal == ParseFile(h, View(), left)
        decreases |left|
      {
        lineno := lineno + 1;
        OneLine(h, line, CText(left[..ChunkLength(left)]));
        left := file.rest;
        if error != 0 {
          break;
        }
        more := file.Gets(line);
      }
    }

    /** The body of the loop. */
    method OneLine(h: Handler, line: array<char>, ghost text: string)
      requires Valid() && line != section && CStrAt(line[..], 0, text) && error == 0
      modifies this`error, this`calls, this`sectionText, section, line
      ensures Valid() && View() == Apply(h, old(View()), ParseLine(WithoutBom(text, lineno)))
    {
      hide FindCharOrComment, RStrip, LSkip, Separator, ValueOf, CStrAt, WithoutBom;
      var start := SkipBom(line, text);
      ghost var s0 := WithoutBom(text, lineno);
      RStripAt(line, start, s0);
      start := LSkipAt(line, start, RStrip(s0));
      ghost var s := LSkip(RStrip(s0));
      CharAt(line[..], start, s, 0);
      if line[start] == ';' || line[start] == '#' {
      } else if line[start] == '[' {
        SectionLine(line, start, s);
      } else if line[start] != '\0' {
        PairLine(h, line, start, s);
      }
    }

    method SkipBom(line: array<char>, ghost text: string) returns (start: nat)
      requires CStrAt(line[..], 0, text)
      ensures CStrAt(line[..], start, WithoutBom(text, lineno))
    {
      start := 0;
      CharAt(line[..], 0, text, 0);
      if lineno == 1 && line[0] as int == 0xEF {
        CharAt(line[..], 0, text, 1);
        if line[1] as int == 0xBB {
          CharAt(line[..], 0, text, 2);
          if line[2] as int == 0xBF {
            CharAt(line[..], 0, text, 3);
            Suffix(line[..], 0, text, 3);
            start := 3;
          }
        }
      }
    }
  }

  /** What stands behind an edited part is still there. */
  lemma Behind(a: seq<char>, p: nat, s: string, b: seq<char>)
    requires CStrAt(b, p, s) && |a| == |b| && a[p..] == b[p..]
    ensures CStrAt(a, p, s)
  {
    var x, y := a[p..p + |s|], b[p..p + |s|];
    forall i | 0 <= i < |s|
      ensures x[i] == y[i]
    {
      assert a[p..][i] == b[p..][i];
    }
    assert a[p..][|s|] == b[p..][|s|];
    assert x == y;
  }

  lemma InFront(a: seq<char>, p: nat, s: string, b: seq<char>, q: nat)
    requires CStrAt(b, p, s) && p + |s| < q <= |a| == |b| && a[..q] == b[..q]
    ensures CStrAt(a, p, s)
  {
    var x, y := a[p..p + |s|], b[p..p + |s|];
    forall i | 0 <= i < |s|
      ensures x[i] == y[i]
    {
      assert a[..q][p + i] == b[..q][p + i];
    }
    assert a[..q][p + |s|] == b[..q][p + |s|];
    assert x == y;
  }

  /** A scan for a comment alone stops at a ';' or at the end. */
  lemma StopsAtComment(v: string, k: nat)
    requires k == FindCharOrComment(v, None) && (k < |v| ==> v[k] != ';')
    ensures k == |v|
  {
    FindFacts(v, None, 0);
  }
}
