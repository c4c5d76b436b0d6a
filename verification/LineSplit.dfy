/** What "split a stream into lines at \r?\n" means, independently of any buffer. */
module LineSplit {
  import opened Prelude

  /** A line loses one '\r' in front of its '\n'. */
  function Chomp(line: string): string {
    if line != [] && line[|line| - 1] == '\r' then line[..|line| - 1] else line
  }

  datatype Cut = Cut(line: Option<string>, rest: string)

  /** The next line of a stream and what follows it; no line when the stream is exhausted. */
  function NextLine(s: string): Cut {
    var k := Find(s, '\n');
    if k < |s| then Cut(Some(Chomp(s[..k])), s[k + 1..])
    else if s != [] then Cut(Some(s), [])
    else Cut(None, [])
  }

  function Split(s: string): seq<string>
    decreases |s|
  {
    if s == [] then []
    else
      var cut := NextLine(s);
      [cut.line.value] + Split(cut.rest)
  }

  lemma SplitStep(s: string)
    ensures var cut := NextLine(s); Split(s) == (if cut.line.Some? then [cut.line.value] + Split(cut.rest) else [])
    ensures var cut := NextLine(s); if cut.line.Some? then |cut.rest| < |s| else s == [] && cut.rest == []
  {
  }

  function LongestLine(lines: seq<string>): nat {
    if lines == [] then 0 else Max(|lines[0]|, LongestLine(lines[1..]))
  }

  /** The regular expression \r?\n matches exactly s[i..j]. */
  ghost predicate Matches(s: string, i: nat, j: nat) {
    || (j == i + 1 <= |s| && s[i] == '\n')
    || (j == i + 2 <= |s| && s[i] == '\r' && s[i + 1] == '\n')
  }

  /** s[i..j] is the leftmost match of \r?\n at or after from. */
  ghost predicate LeftmostMatch(s: string, from: nat, i: nat, j: nat) {
    from <= i && Matches(s, i, j) && forall p, q :: from <= p < i ==> !Matches(s, p, q)
  }

  /** Where a scan that stops at the first match has found it. */
  lemma FirstEolIsLeftmost(s: string, from: nat, i: nat, j: nat)
    requires from <= i < |s| && '\n' !in s[from..i] && Matches(s, i, j)
    requires i > from && s[i - 1] == '\r' ==> s[i] != '\n'
    ensures LeftmostMatch(s, from, i, j)
  {
    forall p: nat | from <= p < i
      ensures s[p] != '\n'
    {
      assert s[p] == s[from..i][p - from];
    }
  }

  /** Splitting at the leftmost match is NextLine. */
  lemma LeftmostMatchIsNextLine(s: string, i: nat, j: nat)
    requires LeftmostMatch(s, 0, i, j)
    ensures NextLine(s) == Cut(Some(s[..i]), s[j..])
  {
    forall p | 0 <= p < j - 1
      ensures s[p] != '\n'
    {
      assert s[p] == '\n' ==> Matches(s, p, p + 1);
    }
    FindExact(s, '\n', j - 1);
    assert forall p: nat :: p + 1 < |s| && s[p] == '\r' && s[p + 1] == '\n' ==> Matches(s, p, p + 2);
    assert j == i + 2 ==> s[..j - 1] == s[..i] + "\r";
  }

  /** What follows in the stream does not disturb a leftmost match. */
  lemma MatchBeforeMore(s: string, from: nat, i: nat, j: nat, more: string)
    requires LeftmostMatch(s, from, i, j)
    ensures NextLine(s[from..] + more) == Cut(Some(s[from..i]), s[j..] + more)
  {
    var t := s[from..] + more;
    forall p: nat, q: nat | p < i - from
      ensures !Matches(t, p, q)
    {
      var earlier := Matches(s, from + p, from + q);
      assert t[p] == s[from + p] && t[p + 1] == s[from + p + 1];
    }
    LeftmostMatchIsNextLine(t, i - from, j - from);
    assert t[..i - from] == s[from..i];
    assert t[j - from..] == s[j..] + more;
  }

  datatype Eol = Lf | CrLf

  function EolText(e: Eol): string {
    if e == Lf then "\n" else "\r\n"
  }

  /** A stream laid out as terminated lines followed by an unterminated tail. */
  datatype Layout = Layout(lines: seq<(string, Eol)>, tail: string)

  function Render(l: Layout): string
    decreases |l.lines|
  {
    if l.lines == [] then l.tail
    else l.lines[0].0 + EolText(l.lines[0].1) + Render(l.(lines := l.lines[1..]))
  }

  /** No text holds a terminator, and a lone '\n' is never the second half of a "\r\n". */
  ghost predicate Proper(l: Layout) {
    && '\n' !in l.tail
    && (forall i :: 0 <= i < |l.lines| ==> '\n' !in l.lines[i].0)
    && (forall i :: 0 <= i < |l.lines| && l.lines[i].1 == Lf ==> Chomp(l.lines[i].0) == l.lines[i].0)
  }

  function Texts(l: Layout): seq<string>
    decreases |l.lines|
  {
    if l.lines == [] then (if l.tail == [] then [] else [l.tail])
    else [l.lines[0].0] + Texts(l.(lines := l.lines[1..]))
  }

  /** A line without terminators inside it is cut off at its terminator. */
  lemma FirstLine(text: string, eol: Eol, rest: string)
    requires '\n' !in text && (eol == Lf ==> Chomp(text) == text)
    ensures NextLine(text + EolText(eol) + rest) == Cut(Some(text), rest)
  {
    hide Find;
    var head := if eol == CrLf then text + "\r" else text;
    var s := text + EolText(eol) + rest;
    assert s == head + ("\n" + rest);
    assert s[..|head|] == head && s[|head|] == '\n' && s[|head| + 1..] == rest;
    FindExact(s, '\n', |head|);
  }

  lemma ProperRest(l: Layout)
    requires Proper(l) && l.lines != []
    ensures Proper(l.(lines := l.lines[1..]))
    ensures '\n' !in l.lines[0].0 && (l.lines[0].1 == Lf ==> Chomp(l.lines[0].0) == l.lines[0].0)
  {
  }

  lemma ProperMore(text: string, eol: Eol, more: Layout)
    requires Proper(more) && '\n' !in text && (eol == Lf ==> Chomp(text) == text)
    ensures Proper(more.(lines := [(text, eol)] + more.lines))
  {
  }

  lemma TailLine(tail: string)
    requires '\n' !in tail
    ensures Split(tail) == if tail == [] then [] else [tail]
  {
    FindExact(tail, '\n', |tail|);
    assert tail[..|tail|] == tail;
  }

  /** Split recovers the texts of any proper layout, so the split of a stream is unique. */
  lemma {:induction false} SplitRender(l: Layout)
    requires Proper(l)
    ensures Split(Render(l)) == Texts(l)
    decreases |l.lines|
  {
    hide NextLine, Chomp, Split;
    if l.lines == [] {
      TailLine(l.tail);
    } else {
      hide Proper;
      ProperRest(l);
      var (text, eol) := l.lines[0];
      var more := l.(lines := l.lines[1..]);
      FirstLine(text, eol, Render(more));
      SplitStep(Render(l));
      SplitRender(more);
    }
  }

  /** Every stream has such a layout. */
  lemma {:induction false} LayoutOf(s: string) returns (l: Layout)
    ensures Proper(l) && Render(l) == s
    decreases |s|
  {
    var k := Find(s, '\n');
    hide Find;
    if k == |s| {
      l := Layout([], s);
      assert s[..k] == s;
    } else {
      hide Proper;
      var more := LayoutOf(s[k + 1..]);
      var text := Chomp(s[..k]);
      assert forall c :: c in text ==> c in s[..k];
      var eol := if text == s[..k] then Lf else CrLf;
      ProperMore(text, eol, more);
      l := Layout([(text, eol)] + more.lines, more.tail);
      assert l.(lines := l.lines[1..]) == more;
      assert text + EolText(eol) == s[..k] + "\n";
      assert s == s[..k] + "\n" + s[k + 1..];
    }
  }
}
