/** What the lines of an ini file say, for any white space and comments around their parts. */
module IniLines {
  import opened Prelude
  import opened IniFormat

  /** White space in the C locale, written out: space, tab, newline, vertical tab, form feed, carriage return. */
  predicate Blank(s: string) {
    forall c :: c in s ==> c == ' ' || c == '\t' || c == '\n' || c == 11 as char || c == 12 as char || c == '\r'
  }

  lemma BlankIsSpace(s: string)
    ensures Blank(s) <==> forall i :: 0 <= i < |s| ==> IsSpace(s[i])
  {
    if Blank(s) {
      assert forall i :: 0 <= i < |s| ==> s[i] in s;
    }
  }

  lemma {:induction false} SkipBlanks(b: string, s: string)
    requires Blank(b) && (s == "" || !IsSpace(s[0]))
    ensures LSkip(b + s) == s
    decreases |b|
  {
    if b == "" {
      assert b + s == s;
      SkipExact(s);
    } else {
      BlankIsSpace(b);
      assert (b + s)[1..] == b[1..] + s;
      SkipBlanks(b[1..], s);
    }
  }

  /** White space around a line does not matter. */
  lemma AroundLine(before: string, s: string, behind: string)
    requires Blank(before) && Blank(behind) && Trimmed(s)
    ensures LSkip(RStrip(before + s + behind)) == s
    ensures ParseLine(before + s + behind) == ParseLine(s)
  {
    hide RStrip, LSkip, Separator, ValueOf, FindCharOrComment;
    Stripped(before, s, behind);
    Stripped("", s, "");
    assert "" + s + "" == s;
  }

  lemma Stripped(before: string, s: string, behind: string)
    requires Blank(before) && Blank(behind) && Trimmed(s)
    ensures LSkip(RStrip(before + s + behind)) == s
  {
    hide RStrip, LSkip;
    BlankIsSpace(before);
    BlankIsSpace(behind);
    if s == "" {
      var b := before + behind;
      assert before + s + behind == "" + b;
      StripExact("", b);
      SkipExact("");
    } else {
      StripExact(before + s, behind);
      SkipBlanks(before, s);
    }
  }

  /** Blank lines and comment lines say nothing, and no other line does. */
  lemma NothingSaid(s: string)
    requires Trimmed(s)
    ensures ParseLine(s) == Nothing <==> s == "" || s[0] == ';' || s[0] == '#'
  {
    hide RStrip, LSkip, Separator, ValueOf, FindCharOrComment;
    AroundLine("", s, "");
    assert "" + s + "" == s;
  }

  /** A section, whatever stands behind its bracket. */
  lemma SectionSaid(name: string, more: string)
    requires ']' !in name && NoComment(name) && (more == "" || !IsSpace(more[|more| - 1]))
    ensures ParseLine("[" + name + "]" + more) == Section(name)
  {
    hide ParseLine, NoComment, FindCharOrComment;
    var s := "[" + name + "]" + more;
    assert s[|s| - 1] == if more == "" then ']' else more[|more| - 1];
    assert s[1..] == name + ("]" + more);
    NameEnds(name, more);
    SectionParsed(s, |name|);
  }

  lemma SectionParsed(s: string, e: nat)
    requires Trimmed(s) && s != "" && s[0] == '['
    requires e == FindCharOrComment(s[1..], Some(']')) < |s| - 1 && s[1..][e] == ']'
    ensures ParseLine(s) == Section(s[1..][..e])
  {
    hide RStrip, LSkip, Separator, ValueOf, FindCharOrComment;
    Stripped("", s, "");
    assert "" + s + "" == s;
  }

  lemma NameEnds(name: string, more: string)
    requires ']' !in name && NoComment(name)
    ensures var t := name + ("]" + more);
            FindCharOrComment(t, Some(']')) == |name| && t[..|name|] == name && t[|name|] == ']'
  {
    hide FindFrom;
    var t := name + ("]" + more);
    assert t[..|name|] == name && t[|name|] == ']';
    forall i: nat | i < |name|
      ensures !StopsAt(t, Some(']'), i)
    {
      assert t[i] == name[i] && (i > 0 ==> t[i - 1] == name[i - 1]);
      assert name[i] in name && !CommentAt(name, i);
    }
    FoundAt(t, Some(']'), |name|);
  }

  /** A section without its bracket, or with a comment in front of it, is an error. */
  lemma SectionMalformed(t: string)
    requires Trimmed("[" + t) && forall i :: 0 <= i < |t| && t[i] == ']' ==> exists j :: 0 <= j < i && CommentAt(t, j)
    ensures ParseLine("[" + t) == Malformed
  {
    hide RStrip, LSkip, FindFrom;
    var s := "[" + t;
    AroundLine("", s, "");
    assert "" + s + "" == s && s[1..] == t;
    NotFoundBeforeComment(t, ']');
  }

  lemma NotFoundBeforeComment(t: string, c: char)
    requires forall i :: 0 <= i < |t| && t[i] == c ==> exists j :: 0 <= j < i && CommentAt(t, j)
    ensures var e := FindCharOrComment(t, Some(c)); e < |t| ==> t[e] != c
  {
    hide FindFrom, CommentAt;
    FindFacts(t, Some(c), 0);
    var e := FindCharOrComment(t, Some(c));
    forall j: nat | j < e
      ensures !CommentAt(t, j)
    {
      assert !StopsAt(t, Some(c), j);
    }
  }

  /** A line that is no comment and no section, with no separator in front of a comment, is an error. */
  lemma PairMalformed(s: string)
    requires Trimmed(s) && s != "" && s[0] != ';' && s[0] != '#' && s[0] != '['
    requires forall i :: 0 <= i < |s| && (s[i] == '=' || s[i] == ':') ==> exists j :: 0 <= j < i && CommentAt(s, j)
    ensures ParseLine(s) == Malformed
  {
    hide RStrip, LSkip, FindFrom, CommentAt, ValueOf;
    AroundLine("", s, "");
    assert "" + s + "" == s;
    NotFoundBeforeComment(s, '=');
    NotFoundBeforeComment(s, ':');
    FindFacts(s, Some('='), 0);
    FindFacts(s, Some(':'), 0);
    SameStop(s);
  }

  lemma SameStop(s: string)
    ensures var e := FindCharOrComment(s, Some(':')); e < |s| ==> s[e] == ':' || s[e] == ';'
    ensures var e := FindCharOrComment(s, Some('=')); e < |s| ==> s[e] == '=' || s[e] == ';'
  {
    FindFacts(s, Some('='), 0);
    FindFacts(s, Some(':'), 0);
  }

  /** What may stand behind a value: nothing, or white space and a comment. */
  predicate Trail(trail: string, blank: string, comment: string) {
    trail == "" || (trail == blank + ";" + comment && Blank(blank) && blank != "" &&
                    (comment == "" || !IsSpace(comment[|comment| - 1])))
  }

  /** A colon separates where there is no equals sign in front of a comment. */
  predicate Separates(sep: char, key: string, value: string) {
    sep == '=' || (sep == ':' && ':' !in key && '=' !in value)
  }

  /** A name and a value, with white space around the separator and a comment behind the value. */
  lemma PairSaid(key: string, b1: string, sep: char, b2: string, value: string, trail: string, b3: string,
                 comment: string)
    requires CleanPair(key, value) && Separates(sep, key, value) && Blank(b1) && Blank(b2) && Trail(trail, b3, comment)
    requires (key == "" ==> b1 == "") && (value == "" ==> b2 == "" && trail == "")
    ensures ParseLine(key + b1 + [sep] + b2 + value + trail) == Pair(key, value)
  {
    hide RStrip, LSkip, Separator, ValueOf, CleanPair, Trail, Blank, ParseLine;
    var left, right := key + b1, b2 + value + trail;
    var s := left + [sep] + right;
    Regroup(left, [sep], b2, value, trail);
    PairShape(key, b1, sep, b2, value, trail, b3, comment);
    SeparatorAt(key, b1, sep, b2, value, trail, b3, comment);
    PairParsed(s, |left|);
    Cut(left, sep, right);
    BlankIsSpace(b1);
    StripKey(key, value, b1);
    ValueSaid(key, b2, value, trail, b3, comment);
  }

  lemma Cut(left: string, sep: char, right: string)
    ensures var s := left + [sep] + right; s[..|left|] == left && s[|left| + 1..] == right
  {
  }

  lemma PairParsed(s: string, e: nat)
    requires Trimmed(s) && s != "" && s[0] != ';' && s[0] != '#' && s[0] != '['
    requires e == Separator(s) < |s| && (s[e] == '=' || s[e] == ':')
    ensures ParseLine(s) == Pair(RStrip(s[..e]), ValueOf(s[e + 1..]))
  {
    hide RStrip, LSkip, Separator, ValueOf, FindCharOrComment;
    Stripped("", s, "");
    assert "" + s + "" == s;
  }

  lemma Regroup(a: string, b: string, c: string, d: string, e: string)
    ensures a + b + c + d + e == a + b + (c + d + e)
  {
  }

  lemma StripKey(key: string, value: string, b1: string)
    requires CleanPair(key, value) && forall i :: 0 <= i < |b1| ==> IsSpace(b1[i])
    ensures RStrip(key + b1) == key
  {
    StripExact(key, b1);
  }

  lemma PairShape(key: string, b1: string, sep: char, b2: string, value: string, trail: string, b3: string,
                  comment: string)
    requires CleanPair(key, value) && Separates(sep, key, value) && Blank(b1) && Blank(b2) && Trail(trail, b3, comment)
    requires (key == "" ==> b1 == "") && (value == "" ==> b2 == "" && trail == "")
    ensures var s := (key + b1) + [sep] + (b2 + value + trail);
            s != "" && Trimmed(s) && s[0] != ';' && s[0] != '#' && s[0] != '['
  {
    hide NoComment, Blank;
    var s := (key + b1) + [sep] + (b2 + value + trail);
    assert s[0] == if key == "" then sep else key[0];
    assert s[|s| - 1] == if trail != "" then trail[|trail| - 1] else if value != "" then value[|value| - 1] else sep;
    assert trail != "" ==> trail[|trail| - 1] == if comment == "" then ';' else comment[|comment| - 1];
  }

  /** In front of the separator nothing stops the scan for it. */
  lemma LeftIsPassed(key: string, b1: string, right: string, c: char)
    requires NoComment(key) && c !in key && Blank(b1) && (c == '=' || c == ':')
    ensures var s := key + b1 + right; forall i: nat :: i < |key + b1| ==> !StopsAt(s, Some(c), i)
  {
    var s := key + b1 + right;
    BlankIsSpace(b1);
    forall i: nat | i < |key + b1|
      ensures !StopsAt(s, Some(c), i)
    {
      assert s[i] == if i < |key| then key[i] else b1[i - |key|];
      if i < |key| {
        assert i > 0 ==> s[i - 1] == key[i - 1];
        assert key[i] in key && !CommentAt(key, i);
      }
    }
  }

  lemma SeparatorAt(key: string, b1: string, sep: char, b2: string, value: string, trail: string, b3: string,
                    comment: string)
    requires CleanPair(key, value) && Separates(sep, key, value) && Blank(b1) && Blank(b2) && Trail(trail, b3, comment)
    ensures var s := (key + b1) + [sep] + (b2 + value + trail); Separator(s) == |key + b1| && s[|key + b1|] == sep
  {
    hide FindFrom, Blank, NoComment, Trail;
    var left, right := key + b1, b2 + value + trail;
    var s := left + [sep] + right;
    assert s == left + ([sep] + right) && s[|left|] == sep;
    LeftIsPassed(key, b1, [sep] + right, sep);
    FoundAt(s, Some(sep), |left|);
    if sep == ':' {
      NoEquals(key, b1, b2, value, trail, b3, comment);
    }
  }

  /** With a colon, the scan for an equals sign ends at a comment or at the end. */
  lemma NoEquals(key: string, b1: string, b2: string, value: string, trail: string, b3: string, comment: string)
    requires CleanPair(key, value) && '=' !in value && Blank(b1) && Blank(b2) && Trail(trail, b3, comment)
    ensures var s := (key + b1) + [':'] + (b2 + value + trail);
            var e := FindCharOrComment(s, Some('=')); e < |s| ==> s[e] != '='
  {
    hide FindFrom, NoComment;
    var front := (key + b1) + [':'] + (b2 + value);
    var s := (key + b1) + [':'] + (b2 + value + trail);
    assert s == front + trail;
    assert '=' !in front;
    forall i | 0 <= i < |s| && s[i] == '='
      ensures exists j :: 0 <= j < i && CommentAt(s, j)
    {
      NotInFront(front, trail, i);
      TrailComment(trail, b3, comment, i - |front|);
      var n := |front| + |b3|;
      assert s[n] == trail[|b3|] && s[n - 1] == trail[|b3| - 1];
      assert CommentAt(s, n);
    }
    NotFoundBeforeComment(s, '=');
  }

  lemma NotInFront(front: string, trail: string, i: nat)
    requires '=' !in front && i < |front + trail| && (front + trail)[i] == '='
    ensures i >= |front| && trail[i - |front|] == '='
  {
    forall k | 0 <= k < |front|
      ensures (front + trail)[k] != '='
    {
      assert front[k] in front;
    }
  }

  lemma TrailComment(trail: string, b3: string, comment: string, i: nat)
    requires Trail(trail, b3, comment) && i < |trail| && trail[i] == '='
    ensures 0 < |b3| < i && trail[|b3|] == ';' && IsSpace(trail[|b3| - 1])
  {
    BlankIsSpace(b3);
    assert forall j :: 0 <= j < |b3| ==> trail[j] == b3[j];
    assert trail[|b3|] == ';';
  }

  lemma ValueSaid(key: string, b2: string, value: string, trail: string, b3: string, comment: string)
    requires CleanPair(key, value) && Blank(b2) && Trail(trail, b3, comment)
    requires value == "" ==> b2 == "" && trail == ""
    ensures ValueOf(b2 + value + trail) == value
  {
    hide RStrip, LSkip, FindFrom;
    var v := value + trail;
    assert b2 + value + trail == b2 + v;
    assert v != "" ==> v[0] == value[0];
    SkipBlanks(b2, v);
    var k := if trail == "" then |value| else |value| + |b3|;
    BlankIsSpace(b3);
    if trail != "" {
      assert v == (value + b3) + (";" + comment) && v[k] == ';' && v[k - 1] == b3[|b3| - 1];
      assert v[..k] == value + b3;
    } else {
      assert v == value && v[..k] == value + "";
    }
    ValuePassed(value, trail, b3, comment, k);
    FoundAt(v, None, k);
    StripExact(value, if trail == "" then "" else b3);
  }

  lemma ValuePassed(value: string, trail: string, b3: string, comment: string, k: nat)
    requires NoComment(value) && Trail(trail, b3, comment) && k == if trail == "" then |value| else |value| + |b3|
    ensures forall i: nat :: i < k ==> !StopsAt(value + trail, None, i)
  {
    var v := value + trail;
    BlankIsSpace(b3);
    forall i: nat | i < k
      ensures !StopsAt(v, None, i)
    {
      if i < |value| {
        assert v[i] == value[i] && (i > 0 ==> v[i - 1] == value[i - 1]);
        assert !CommentAt(value, i);
      } else {
        assert v[i] == trail[i - |value|] == b3[i - |value|];
      }
    }
  }

  /** Where there is no value, a comment is taken for one: a ';' at the beginning of a value starts no comment. */
  lemma EmptyValueTakesComment(key: string, b2: string, comment: string)
    requires CleanPair(key, ";" + comment) && Blank(b2)
    ensures ParseLine(key + "=" + b2 + ";" + comment) == Pair(key, ";" + comment)
  {
    hide ParseLine, CleanPair;
    PairSaid(key, "", '=', b2, ";" + comment, "", "", "");
    assert key + "" + ['='] + b2 + (";" + comment) + "" == key + "=" + b2 + ";" + comment;
  }
}
