/** The client's command line: which operation it is, what message it becomes, and what the receivers read out of it. */
module CommandLine {
  import opened Prelude

  // ---- comparing without regard to case

  function ToLower(c: char): char {
    if 'A' <= c <= 'Z' then (c as int + 32) as char else c
  }

  function Lower(s: string): (r: string)
    ensures |r| == |s|
  {
    seq(|s|, i requires 0 <= i < |s| => ToLower(s[i]))
  }

  predicate StartsWith(s: string, lowerPrefix: string) {
    |s| >= |lowerPrefix| && Lower(s[..|lowerPrefix|]) == lowerPrefix
  }

  // ---- the operation

  datatype Operation = NoOperation | Service | Status | Stop | InvokedCommand | Command

  datatype Parsed = Parsed(operation: Operation, pipeOption: string, command: string)

  const UNPARSED := Parsed(NoOperation, "", "")

  predicate IsOption(arg: string) {
    arg != "" && arg[0] == '-'
  }

  predicate IsPipe(arg: string) {
    IsOption(arg) && StartsWith(arg[1..], "pipe=")
  }

  predicate IsKeyword(arg: string) {
    Lower(arg) == "status" || Lower(arg) == "stop"
  }

  /** One turn of the loop over the arguments: the first recognized operation wins. */
  function ParseArg(p: Parsed, arg: string): Parsed {
    if IsOption(arg) then
      if Lower(arg[1..]) == "service" then (if p.operation.NoOperation? then p.(operation := Service) else p)
      else if IsPipe(arg) then
        (if p.operation.NoOperation? then p.(operation := InvokedCommand, pipeOption := arg) else p)
      else p
    else if Lower(arg) == "status" then
      (if p.operation.NoOperation? then p.(operation := Status, command := "status") else p)
    else if Lower(arg) == "stop" then
      (if p.operation.NoOperation? then p.(operation := Stop, command := "stop") else p)
    else if p.operation.NoOperation? then p.(operation := Command, command := arg)
    else if p.command == "" then p.(command := arg)
    else p
  }

  function ParseArgs(p: Parsed, args: seq<string>): Parsed
    decreases |args|
  {
    if args == [] then p else ParseArgs(ParseArg(p, args[0]), args[1..])
  }

  // ---- the message

  /** The filter: the first pipe option goes, wherever it stands. */
  function WithoutPipe(args: seq<string>): seq<string> {
    if args == [] then [] else if IsPipe(args[0]) then args[1..] else [args[0]] + WithoutPipe(args[1..])
  }

  /** strncpy(dest, src, n) of a C string: cut, or padded with null characters. */
  function Copied(src: string, n: nat): string {
    if n <= |src| then src[..n] else src + seq(n - |src|, _ => '\0')
  }

  /** The arguments as they are flattened: the first two with the lengths of the names they were made for. */
  function Parts(ext: string, uds: string, args: seq<string>): seq<string>
    requires |WithoutPipe([ext, uds] + args)| >= 2
  {
    var dup := WithoutPipe([ext, uds] + args);
    [Copied(dup[0], |ext|), Copied(dup[1], |uds|)] + dup[2..]
  }

  /** Each nonempty part in quotes and followed by a space. */
  function Flat(parts: seq<string>): string {
    if parts == [] then ""
    else (if parts[0] == "" then "" else "\"" + parts[0] + "\" ") + Flat(parts[1..])
  }

  /** Without the last space. */
  function Message(parts: seq<string>): string {
    var f := Flat(parts);
    if f == "" then "" else f[..|f| - 1]
  }

  const EXTENDED_INVOKE := "--EXTENDED_INVOKE"

  function ExtendedInvoke(extended: bool): string {
    EXTENDED_INVOKE + (if extended then "=true" else "=false")
  }

  lemma ExtendedIsNoPipe(extended: bool)
    ensures !IsPipe(ExtendedInvoke(extended)) && ' ' !in ExtendedInvoke(extended) && ExtendedInvoke(extended) != ""
    ensures NoNull(ExtendedInvoke(extended))
  {
    var s, end := ExtendedInvoke(extended), if extended then "=true" else "=false";
    assert s[0] == EXTENDED_INVOKE[0] && s[1] == EXTENDED_INVOKE[1] == '-';
    NotAPipe(s);
    assert ' ' !in EXTENDED_INVOKE && '\0' !in EXTENDED_INVOKE && ' ' !in end && '\0' !in end;
    assert forall c :: c in s ==> c in EXTENDED_INVOKE || c in end;
  }

  lemma NotAPipe(arg: string)
    requires |arg| >= 2 && ToLower(arg[1]) != 'p'
    ensures !IsPipe(arg)
  {
    var s := arg[1..];
    if |s| >= 5 {
      assert Lower(s[..5])[0] == ToLower(s[0]) && "pipe="[0] == 'p';
    }
  }

  lemma ExtendedInvokeIs()
    ensures ExtendedInvoke(true) == "--EXTENDED_INVOKE=true" && ExtendedInvoke(false) == "--EXTENDED_INVOKE=false"
  {
  }

  predicate NoNull(s: string) {
    '\0' !in s
  }

  /**
   * The parts are the two names and the arguments without their first pipe option exactly when the socket name does not
   * look like a pipe option itself (or the first argument begins with it, so that dropping the name makes no
   * difference). Such a name without any argument leaves the flattening with one entry, which it is not made for.
   */
  lemma PartsExact(extended: bool, uds: string, args: seq<string>)
    requires (args != [] || !IsPipe(uds)) && NoNull(uds)
    ensures |WithoutPipe([ExtendedInvoke(extended), uds] + args)| >= 2
    ensures Parts(ExtendedInvoke(extended), uds, args) == [ExtendedInvoke(extended), uds] + WithoutPipe(args) <==>
            !IsPipe(uds) || (args != [] && uds <= args[0])
  {
    hide IsPipe, Copied, WithoutPipe;
    var ext := ExtendedInvoke(extended);
    ExtendedIsNoPipe(extended);
    FilterNames(ext, uds, args);
    CopiedWhole(ext);
    CopiedWhole(uds);
    if IsPipe(uds) {
      if uds <= args[0] {
        PipePrefix(uds, args[0]);
        FilterFirst(args);
        CopiedPart(args[0], uds);
        assert ([ext] + args)[2..] == args[1..];
      } else {
        CopyDiffers(args[0], uds);
        assert Parts(ext, uds, args)[1] == Copied(args[0], |uds|);
        assert ([ext, uds] + WithoutPipe(args))[1] == uds;
      }
    } else {
      assert ([ext, uds] + WithoutPipe(args))[2..] == WithoutPipe(args);
    }
  }

  lemma FilterNames(ext: string, uds: string, args: seq<string>)
    requires !IsPipe(ext)
    ensures WithoutPipe([ext, uds] + args) == if IsPipe(uds) then [ext] + args else [ext, uds] + WithoutPipe(args)
  {
    hide IsPipe, WithoutPipe;
    FilterCons(ext, [uds] + args);
    FilterCons(uds, args);
    assert [ext, uds] + args == [ext] + ([uds] + args);
    assert [ext, uds] + WithoutPipe(args) == [ext] + ([uds] + WithoutPipe(args));
  }

  lemma FilterCons(arg: string, args: seq<string>)
    ensures WithoutPipe([arg] + args) == if IsPipe(arg) then args else [arg] + WithoutPipe(args)
  {
    hide IsPipe;
    assert ([arg] + args)[1..] == args;
  }

  lemma FilterFirst(args: seq<string>)
    requires args != [] && IsPipe(args[0])
    ensures WithoutPipe(args) == args[1..]
  {
  }

  lemma CopiedWhole(s: string)
    ensures Copied(s, |s|) == s
  {
  }

  lemma CopiedPart(src: string, s: string)
    requires s <= src
    ensures Copied(src, |s|) == s
  {
  }

  lemma PipePrefix(a: string, b: string)
    requires IsPipe(a) && a <= b
    ensures IsPipe(b)
  {
    assert a[1..][..5] == b[1..][..5];
  }

  lemma CopyDiffers(src: string, s: string)
    requires NoNull(s) && !(s <= src)
    ensures Copied(src, |s|) != s
  {
    if |s| > |src| {
      assert Copied(src, |s|)[|src|] == '\0';
      assert s[|src|] in s;
    }
  }

  // ---- reading the message: strtok_r

  function Tokens(s: string, delim: char): seq<string>
    decreases |s|
  {
    if s == [] then []
    else if s[0] == delim then Tokens(s[1..], delim)
    else
      var k := Find(s, delim);
      [s[..k]] + Tokens(s[k..], delim)
  }

  function Unquoted(s: string): string {
    if s == [] then [] else (if s[0] == '"' then [] else [s[0]]) + Unquoted(s[1..])
  }

  /** A token without its quotes. */
  function Word(s: string, i: nat): Option<string> {
    var ts := Tokens(s, ' ');
    if i < |ts| then Some(Unquoted(ts[i])) else None
  }

  /** The message as a C string ends at its first null character. */
  function Received(message: string): string {
    message[..Find(message, '\0')]
  }

  /**
   * The sub-command as handle_launcher_msg and handle_supervisor_msg extract it: the third token, without its quotes.
   */
  function Extracted(message: string): Option<string> {
    Word(Received(message), 2)
  }

  lemma TokenBefore(t: string, more: string, delim: char)
    requires t != [] && delim !in t
    ensures Tokens(t + [delim] + more, delim) == [t] + Tokens(more, delim)
    ensures Tokens(t, delim) == [t]
  {
    var s := t + [delim] + more;
    FindExact(s, delim, |t|);
    FindExact(t, delim, |t|);
    assert s[0] in t;
    assert s[..|t|] == t && s[|t|..] == [delim] + more && ([delim] + more)[1..] == more;
    assert t[..|t|] == t && t[|t|..] == [];
  }

  lemma {:induction false} UnquotedFacts(s: string)
    ensures '"' !in Unquoted(s) && |Unquoted(s)| <= |s|
    ensures '"' !in s ==> Unquoted(s) == s
    ensures forall c :: c in Unquoted(s) ==> c in s
  {
    if s != [] {
      UnquotedFacts(s[1..]);
      assert s == [s[0]] + s[1..];
    }
  }

  lemma {:induction false} UnquotedQuote(s: string)
    ensures Unquoted("\"" + s) == Unquoted(s) && Unquoted(s + "\"") == Unquoted(s)
  {
    assert ("\"" + s)[1..] == s;
    if s == [] {
      assert s + "\"" == "\"" && ("\"")[1..] == [];
    } else {
      assert (s + "\"")[1..] == s[1..] + "\"";
      UnquotedQuote(s[1..]);
    }
  }

  /** Erasing the quotes, character by character. */
  lemma {:induction false} UnquotedAppend(a: string, b: string)
    ensures Unquoted(a + b) == Unquoted(a) + Unquoted(b)
  {
    if a == "" {
      assert a + b == b;
    } else {
      assert (a + b)[1..] == a[1..] + b;
      UnquotedAppend(a[1..], b);
    }
  }

  /** The first nonempty argument. */
  function FirstNonempty(args: seq<string>): Option<string> {
    if args == [] then None else if args[0] != "" then Some(args[0]) else FirstNonempty(args[1..])
  }

  predicate OneWord(s: string) {
    ' ' !in s && s != ""
  }

  lemma {:induction false} FlatFirst(parts: seq<string>) returns (more: string)
    ensures Flat(parts) == match FirstNonempty(parts) case None => "" case Some(a) => "\"" + a + "\" " + more
    decreases |parts|
  {
    more := "";
    if parts != [] {
      if parts[0] == "" {
        more := FlatFirst(parts[1..]);
        assert Flat(parts) == Flat(parts[1..]);
      } else {
        more := Flat(parts[1..]);
      }
    }
  }

  /** What is left of a quoted argument when strtok_r cuts it at a space and the quotes are erased. */
  lemma ThirdToken(a: string, more: string)
    requires a != ""
    ensures var ts := Tokens("\"" + a + "\"" + more, ' ');
            (more == "" || more[0] == ' ') ==> ts != [] && (Unquoted(ts[0]) == a <==> ' ' !in a && '"' !in a)
    ensures var ts := Tokens("\"" + a + "\"" + more, ' ');
            IsOption(a) && (more == "" || more[0] == ' ') ==> ts != [] && IsOption(Unquoted(ts[0]))
  {
    var s := "\"" + a + "\"" + more;
    if more == "" || more[0] == ' ' {
      var k := Find(s, ' ');
      assert Tokens(s, ' ')[0] == s[..k];
      UnquotedFacts(s[..k]);
      assert s[1] == a[0];
      assert IsOption(a) ==> k >= 2 && s[..k][1..][0] == '-' && s[..k][0] == '"';
      if ' ' in a {
        var j :| 0 <= j < |a| && a[j] == ' ';
        assert s[j + 1] == ' ';
        assert forall i :: 0 <= i < k ==> s[i] in s[..k];
      } else {
        var q := "\"" + a + "\"";
        assert s[..|q|] == q && (more != "" ==> s[|q|] == ' ');
        FindExact(s, ' ', |q|);
        UnquotedQuote("\"" + a);
        UnquotedQuote(a);
        UnquotedFacts(a);
      }
    }
  }

  function Quoted(s: string): string {
    "\"" + s + "\""
  }

  /** The message of two names and more arguments, up to what stands behind the first nonempty one of these. */
  lemma MessageShape(ext: string, uds: string, rest: seq<string>) returns (tail: string)
    requires ext != "" && uds != ""
    ensures tail == "" || tail[0] == ' '
    ensures Message([ext, uds] + rest) ==
            match FirstNonempty(rest)
            case None => Quoted(ext) + " " + Quoted(uds)
            case Some(a) => Quoted(ext) + " " + (Quoted(uds) + " " + (Quoted(a) + tail))
  {
    hide Flat, Quoted, Message;
    var more := FlatFirst(rest);
    FlatNames(ext, uds, rest);
    tail := if more == "" then "" else " " + more[..|more| - 1];
    var x, y := Quoted(ext) + " ", Quoted(uds) + " ";
    match FirstNonempty(rest)
    case None =>
      assert x + y + "" == x + y;
      CutMessage([ext, uds] + rest, x, y);
      LastSpace(Quoted(uds), "");
    case Some(a) =>
      FlatLast(a, more);
      CutMessage([ext, uds] + rest, x + y, Quoted(a) + " " + more);
      LastSpace(Quoted(a), more);
      Associate(x, y, Quoted(a) + tail);
  }

  /** The message is the flattened text without its last character. */
  lemma CutMessage(parts: seq<string>, a: string, b: string)
    requires Flat(parts) == a + b && b != ""
    ensures Message(parts) == a + b[..|b| - 1]
  {
    hide Flat;
    CutLast(a, b);
  }

  lemma FlatLast(a: string, more: string)
    ensures "\"" + a + "\" " + more == Quoted(a) + " " + more
  {
  }

  lemma LastSpace(q: string, more: string)
    ensures var last := q + " " + more; last[..|last| - 1] == q + (if more == "" then "" else " " + more[..|more| - 1])
    ensures q + " " + "" == q + " "
  {
  }

  lemma FlatNames(ext: string, uds: string, rest: seq<string>)
    requires ext != "" && uds != ""
    ensures Flat([ext, uds] + rest) == (Quoted(ext) + " ") + (Quoted(uds) + " ") + Flat(rest)
  {
    var all := [ext, uds] + rest;
    assert all[1..] == [uds] + rest && ([uds] + rest)[1..] == rest;
    assert Flat(all) == Quoted(ext) + " " + Flat([uds] + rest);
    assert Flat([uds] + rest) == Quoted(uds) + " " + Flat(rest);
  }

  lemma CutLast(a: string, b: string)
    requires b != ""
    ensures (a + b)[..|a + b| - 1] == a + b[..|b| - 1]
  {
  }

  /** The tokens of two texts with a delimiter between them. */
  lemma {:induction false} TokensAppend(a: string, b: string, delim: char)
    ensures Tokens(a + [delim] + b, delim) == Tokens(a, delim) + Tokens(b, delim)
    decreases |a|
  {
    hide Find, Tokens;
    if a == "" {
      Token([delim] + b, delim);
      Token("", delim);
      assert a + [delim] + b == [delim] + b && ([delim] + b)[1..] == b;
    } else {
      TokenOfBoth(a, b, delim);
      Token(a, delim);
      if a[0] == delim {
        TokensAppend(a[1..], b, delim);
      } else {
        TokensAppend(a[Find(a, delim)..], b, delim);
        Associate([a[..Find(a, delim)]], Tokens(a[Find(a, delim)..], delim), Tokens(b, delim));
      }
    }
  }

  /** The first step of tokenizing two texts is that of the first one. */
  lemma TokenOfBoth(a: string, b: string, delim: char)
    requires a != ""
    ensures a[0] != delim ==> Find(a, delim) > 0
    ensures Tokens(a + [delim] + b, delim) ==
            if a[0] == delim then Tokens(a[1..] + [delim] + b, delim)
            else [a[..Find(a, delim)]] + Tokens(a[Find(a, delim)..] + [delim] + b, delim)
  {
    hide Find, Tokens;
    var s := a + [delim] + b;
    Token(a, delim);
    Token(s, delim);
    FindBefore(a, delim, b);
    assert s[1..] == a[1..] + [delim] + b;
    if Find(a, delim) == |a| {
      assert a[|a|..] + [delim] + b == [delim] + b;
    }
  }

  lemma Token(s: string, delim: char)
    ensures Tokens(s, delim) ==
            if s == "" then [] else if s[0] == delim then Tokens(s[1..], delim)
            else [s[..Find(s, delim)]] + Tokens(s[Find(s, delim)..], delim)
    ensures s != "" && s[0] != delim ==> Find(s, delim) > 0
  {
  }

  lemma FindBefore(a: string, delim: char, b: string)
    ensures var s, k := a + [delim] + b, Find(a, delim);
            Find(s, delim) == k && s[..k] == a[..k] && s[k..] == (if k < |a| then a[k..] + [delim] + b else [delim] + b)
  {
    hide Find;
    var s, k := a + [delim] + b, Find(a, delim);
    assert s == a + ([delim] + b);
    assert s[..k] == a[..k];
    if k == |a| {
      assert s[k..] == [delim] + b;
    } else {
      assert s[k..] == a[k..] + ([delim] + b) == a[k..] + [delim] + b;
    }
    FindExact(s, delim, k);
  }

  /** A quoted text with a space in it is cut into at least two tokens. */
  lemma SpaceCutsQuoted(s: string)
    requires ' ' in s
    ensures |Tokens(Quoted(s), ' ')| >= 2
  {
    hide Tokens;
    var q := Quoted(s);
    var i :| 0 <= i < |s| && s[i] == ' ';
    var a, b := q[..i + 1], q[i + 2..];
    assert q == a + " " + b;
    TokensAppend(a, b, ' ');
    SomeToken(a, ' ', 0);
    SomeToken(b, ' ', |b| - 1);
  }

  lemma {:induction false} SomeToken(s: string, delim: char, i: nat)
    requires i < |s| && s[i] != delim
    ensures Tokens(s, delim) != []
    decreases |s|
  {
    if s[0] == delim {
      SomeToken(s[1..], delim, i - 1);
    }
  }

  /**
   * The sub-command that the receiver extracts from a message of two names and more arguments. A space in the second
   * name makes the third token a part of that name. Otherwise it is the first nonempty argument exactly when that
   * argument holds no space and no quote.
   */
  lemma ExtractedIff(ext: string, uds: string, rest: seq<string>)
    requires OneWord(ext) && uds != "" && NoNull(ext) && NoNull(uds) && forall a :: a in rest ==> NoNull(a)
    ensures ' ' in uds ==> Extracted(Message([ext, uds] + rest)) == Word(Quoted(uds), 1) && Word(Quoted(uds), 1).Some?
    ensures ' ' !in uds ==>
            match FirstNonempty(rest)
            case None => Extracted(Message([ext, uds] + rest)) == None
            case Some(a) => Extracted(Message([ext, uds] + rest)).Some? &&
                            Extracted(Message([ext, uds] + rest)) == Word(Quoted(a), 0) &&
                            (Extracted(Message([ext, uds] + rest)) == Some(a) <==> ' ' !in a && '"' !in a) &&
                            (IsOption(a) ==> IsOption(Extracted(Message([ext, uds] + rest)).value))
  {
    hide Tokens, Unquoted, Message, IsOption, Received, NoNull;
    ReceivedWhole([ext, uds] + rest);
    var tail := MessageShape(ext, uds, rest);
    FirstIsNonempty(rest);
    var behind := match FirstNonempty(rest) case None => "" case Some(a) => Quoted(a) + tail;
    TokensBehindNames(ext, uds, rest, behind);
    if ' ' in uds {
      SpaceCutsQuoted(uds);
    } else {
      TokenBefore(Quoted(uds), "", ' ');
      NoTokens();
      if FirstNonempty(rest).Some? {
        ThirdToken(FirstNonempty(rest).value, tail);
        FirstOfQuoted(FirstNonempty(rest).value, tail);
      }
    }
  }

  /** What stands behind a quoted argument does not change its first token. */
  lemma FirstOfQuoted(a: string, more: string)
    requires more == "" || more[0] == ' '
    ensures var ts, us := Tokens(Quoted(a) + more, ' '), Tokens(Quoted(a), ' '); ts != [] && us != [] && ts[0] == us[0]
  {
    hide Tokens;
    SomeToken(Quoted(a), ' ', 0);
    if more == "" {
      assert Quoted(a) + more == Quoted(a);
    } else {
      assert Quoted(a) + more == Quoted(a) + " " + more[1..];
      TokensAppend(Quoted(a), more[1..], ' ');
    }
  }

  /** Without null characters in the arguments, the message arrives as it was sent. */
  lemma ReceivedWhole(parts: seq<string>)
    requires forall a :: a in parts ==> NoNull(a)
    ensures Received(Message(parts)) == Message(parts)
  {
    FlatNoNull(parts);
    var m := Message(parts);
    assert NoNull(m);
    FindExact(m, '\0', |m|);
  }

  lemma {:induction false} FlatNoNull(parts: seq<string>)
    requires forall a :: a in parts ==> NoNull(a)
    ensures NoNull(Flat(parts))
    decreases |parts|
  {
    if parts != [] {
      assert parts[0] in parts && forall a :: a in parts[1..] ==> a in parts;
      FlatNoNull(parts[1..]);
    }
  }

  /**
   * A first argument shorter than the name whose place it takes is padded with null characters, so the message ends
   * there.
   */
  lemma ExtractedFromPadded(ext: string, first: string, n: nat, rest: seq<string>)
    requires OneWord(ext) && NoNull(ext) && NoNull(first) && |first| < n
    ensures Extracted(Message([ext, Copied(first, n)] + rest)) == Word("\"" + first, 1)
  {
    hide Tokens, Unquoted, Message, Find, Copied;
    var second := Copied(first, n);
    Padded(first, n);
    var tail := MessageShape(ext, second, rest);
    var cut := Quoted(ext) + " " + ("\"" + first);
    var m := Message([ext, second] + rest);
    var more := match FirstNonempty(rest) case None => "" case Some(a) => " " + (Quoted(a) + tail);
    PaddedMessage(ext, first, second, m, more);
    TokenBefore(Quoted(ext), "\"" + first, ' ');
  }

  lemma Padded(first: string, n: nat)
    requires |first| < n
    ensures var second := Copied(first, n); second != "" && first < second && second[|first|] == '\0'
  {
  }

  lemma PaddedMessage(ext: string, first: string, second: string, m: string, more: string)
    requires NoNull(ext) && NoNull(first) && first < second && second[|first|] == '\0'
    requires m == Quoted(ext) + " " + Quoted(second) || m == Quoted(ext) + " " + (Quoted(second) + more)
    ensures Received(m) == Quoted(ext) + " " + ("\"" + first)
  {
    hide Find;
    var cut := Quoted(ext) + " " + ("\"" + first);
    assert second == first + second[|first|..];
    assert m[..|cut|] == cut && m[|cut|] == '\0';
    assert NoNull(cut);
    FindExact(m, '\0', |cut|);
  }

  lemma NoTokens()
    ensures Tokens("", ' ') == []
  {
  }

  lemma TokensBehindNames(ext: string, uds: string, rest: seq<string>, behind: string)
    requires OneWord(ext) && uds != ""
    requires FirstNonempty(rest).None? ==> behind == "" && Message([ext, uds] + rest) == Quoted(ext) + " " + Quoted(uds)
    requires FirstNonempty(rest).Some? ==>
             Message([ext, uds] + rest) ==
             Quoted(ext) + " " + (Quoted(uds) + " " + behind)
    ensures Tokens(Message([ext, uds] + rest), ' ') == [Quoted(ext)] + (Tokens(Quoted(uds), ' ') + Tokens(behind, ' '))
  {
    hide Tokens, Message;
    if FirstNonempty(rest).None? {
      TokenBefore(Quoted(ext), Quoted(uds), ' ');
      NoTokens();
    } else {
      TokenBefore(Quoted(ext), Quoted(uds) + " " + behind, ' ');
      TokensAppend(Quoted(uds), behind, ' ');
    }
  }

  lemma {:induction false} FirstIsNonempty(args: seq<string>)
    ensures FirstNonempty(args).Some? ==> FirstNonempty(args).value != ""
  {
    if args != [] {
      FirstIsNonempty(args[1..]);
    }
  }

  function Nonempty(parts: seq<string>): seq<string> {
    if parts == [] then [] else (if parts[0] == "" then [] else [parts[0]]) + Nonempty(parts[1..])
  }

  function UnquotedAll(ts: seq<string>): seq<string> {
    if ts == [] then [] else [Unquoted(ts[0])] + UnquotedAll(ts[1..])
  }

  /** Parts without spaces and quotes come out of the message again, all that are not empty, in their order. */
  lemma MessageRoundTrip(parts: seq<string>)
    requires forall p :: p in parts ==> ' ' !in p && '"' !in p
    ensures UnquotedAll(Tokens(Message(parts), ' ')) == Nonempty(parts)
  {
    hide Tokens, Flat;
    FlatRoundTrip(parts);
    var f := Flat(parts);
    if f != "" {
      FlatEnds(parts);
      TokensAppend(f[..|f| - 1], "", ' ');
      NoTokens();
      assert f == f[..|f| - 1] + [' '] + "";
      assert Message(parts) == f[..|f| - 1];
      assert Tokens(Message(parts), ' ') + [] == Tokens(Message(parts), ' ');
    }
  }

  lemma {:induction false} FlatEnds(parts: seq<string>)
    ensures Flat(parts) != "" ==> Flat(parts)[|Flat(parts)| - 1] == ' '
  {
    if parts != [] {
      FlatEnds(parts[1..]);
    }
  }

  lemma {:induction false} FlatRoundTrip(parts: seq<string>)
    requires forall p :: p in parts ==> ' ' !in p && '"' !in p
    ensures UnquotedAll(Tokens(Flat(parts), ' ')) == Nonempty(parts)
    decreases |parts|
  {
    hide Tokens, Unquoted, Quoted, Flat;
    if parts == [] {
      NoTokens();
      FlatIs(parts);
    } else {
      assert parts[0] in parts && forall p :: p in parts[1..] ==> p in parts;
      FlatRoundTrip(parts[1..]);
      FlatIs(parts);
      if parts[0] != "" {
        QuotedIsToken(parts[0], Flat(parts[1..]));
        assert ([Quoted(parts[0])] + Tokens(Flat(parts[1..]), ' '))[1..] == Tokens(Flat(parts[1..]), ' ');
      }
    }
  }

  lemma FlatIs(parts: seq<string>)
    ensures Flat(parts) ==
            if parts == [] then "" else if parts[0] == "" then Flat(parts[1..])
            else Quoted(parts[0]) + " " + Flat(parts[1..])
  {
  }

  lemma QuotedIsToken(p: string, more: string)
    requires ' ' !in p && '"' !in p
    ensures Tokens(Quoted(p) + " " + more, ' ') == [Quoted(p)] + Tokens(more, ' ') && Unquoted(Quoted(p)) == p
  {
    hide Tokens, Unquoted;
    TokenBefore(Quoted(p), more, ' ');
    UnquotedQuote("\"" + p);
    UnquotedQuote(p);
    UnquotedFacts(p);
  }

  // ---- the command the client routes by, and the one in the message

  /** The client sends a message: not for a pipe option without a command, but even for an empty command otherwise. */
  predicate IsCommandOperation(p: Parsed) {
    p.operation.Command? || (p.operation.InvokedCommand? && p.command != "")
  }

  predicate IsPlain(arg: string) {
    arg != "" && !IsOption(arg) && !IsKeyword(arg)
  }

  /** Once an operation is known, the command is the one already found or the first plain argument to come. */
  lemma {:induction false} CommandFound(p: Parsed, args: seq<string>)
    requires p.operation.Command? || p.operation.InvokedCommand?
    ensures ParseArgs(p, args) == p.(command := if p.command != "" then p.command else FirstPlain(args))
    decreases |args|
  {
    if args != [] {
      CommandFound(ParseArg(p, args[0]), args[1..]);
    }
  }

  function FirstPlain(args: seq<string>): string {
    if args == [] then "" else if IsPlain(args[0]) then args[0] else FirstPlain(args[1..])
  }

  lemma {:induction false} FirstPlainIsPlain(args: seq<string>)
    ensures FirstPlain(args) != "" ==> IsPlain(FirstPlain(args)) && FirstPlain(args) in args
    ensures FirstPlain(args) == "" ==> forall a :: a in args ==> !IsPlain(a)
    ensures !IsOption(FirstPlain(args))
  {
    if args != [] {
      FirstPlainIsPlain(args[1..]);
      assert forall a :: a in args <==> a == args[0] || a in args[1..];
    }
  }

  /** The command of a command operation is the first plain argument. */
  lemma {:induction false} ParsedCommand(args: seq<string>)
    requires IsCommandOperation(ParseArgs(UNPARSED, args))
    ensures ParseArgs(UNPARSED, args).command == FirstPlain(args)
    decreases |args|
  {
    hide IsPipe;
    if args != [] {
      var p := ParseArg(UNPARSED, args[0]);
      if p.operation.NoOperation? {
        ParsedCommand(args[1..]);
      } else if p.operation.Command? || p.operation.InvokedCommand? {
        CommandFound(p, args[1..]);
      } else {
        OtherOperation(p, args[1..]);
      }
    }
  }

  lemma {:induction false} OtherOperation(p: Parsed, args: seq<string>)
    requires !p.operation.NoOperation?
    ensures ParseArgs(p, args).operation == p.operation && ParseArgs(p, args).pipeOption == p.pipeOption
    ensures p.command != "" ==> ParseArgs(p, args) == p
    decreases |args|
  {
    hide IsPipe;
    if args != [] {
      OtherOperation(ParseArg(p, args[0]), args[1..]);
    }
  }

  // ---- which argument selects which operation

  /** A letter or its capital. */
  predicate SameLetter(c: char, small: char) {
    c == small || ('A' <= c <= 'Z' && c as int + 32 == small as int)
  }

  predicate AnyCase(s: string, word: string) {
    |s| == |word| && forall i :: 0 <= i < |s| ==> SameLetter(s[i], word[i])
  }

  lemma LowerIs(s: string, word: string)
    requires forall i :: 0 <= i < |word| ==> !('A' <= word[i] <= 'Z')
    ensures Lower(s) == word <==> AnyCase(s, word)
  {
    assert |Lower(s)| == |s| && forall i :: 0 <= i < |s| ==> Lower(s)[i] == ToLower(s[i]);
    if AnyCase(s, word) {
      assert forall i :: 0 <= i < |s| ==> SameLetter(s[i], word[i]);
    }
    if Lower(s) == word {
      assert forall i :: 0 <= i < |s| ==> word[i] == ToLower(s[i]);
    }
  }

  predicate Dashed(a: string) {
    a != "" && a[0] == '-'
  }

  predicate SaysService(a: string) {
    Dashed(a) && AnyCase(a[1..], "service")
  }

  predicate SaysPipe(a: string) {
    |a| >= 6 && Dashed(a) && AnyCase(a[1..6], "pipe=")
  }

  predicate SaysStatus(a: string) {
    AnyCase(a, "status")
  }

  predicate SaysStop(a: string) {
    AnyCase(a, "stop")
  }

  predicate SaysCommand(a: string) {
    !Dashed(a) && !SaysStatus(a) && !SaysStop(a)
  }

  predicate Selects(a: string) {
    SaysService(a) || SaysPipe(a) || !Dashed(a)
  }

  /** The argument number k is the first that selects an operation. */
  ghost predicate SelectsFirst(args: seq<string>, k: nat) {
    k < |args| && Selects(args[k]) && forall i :: 0 <= i < k ==> !Selects(args[i])
  }

  /** What an argument has selected. */
  predicate Selected(a: string, p: Parsed) {
    && (p.operation == Service <==> SaysService(a))
    && (p.operation == InvokedCommand <==> SaysPipe(a))
    && (p.operation == Status <==> SaysStatus(a))
    && (p.operation == Stop <==> SaysStop(a))
    && (p.operation == Command <==> SaysCommand(a))
    && p.pipeOption == (if SaysPipe(a) then a else "")
    && (SaysStatus(a) ==> p.command == "status")
    && (SaysStop(a) ==> p.command == "stop")
  }

  lemma KeywordTexts(a: string)
    ensures Lower(a) == "status" <==> SaysStatus(a)
    ensures Lower(a) == "stop" <==> SaysStop(a)
    ensures SaysStatus(a) || SaysStop(a) ==> !Dashed(a)
  {
    LowerIs(a, "status");
    LowerIs(a, "stop");
    assert SaysStatus(a) || SaysStop(a) ==> SameLetter(a[0], 's');
  }

  lemma OptionTexts(a: string)
    ensures Dashed(a) ==> (Lower(a[1..]) == "service" <==> SaysService(a))
    ensures IsPipe(a) <==> SaysPipe(a)
    ensures !(SaysService(a) && SaysPipe(a))
  {
    if Dashed(a) {
      LowerIs(a[1..], "service");
      if |a| >= 6 {
        assert a[1..][..5] == a[1..6];
        LowerIs(a[1..6], "pipe=");
        assert SaysService(a) ==> SameLetter(a[1..][0], 's');
        assert SaysPipe(a) ==> SameLetter(a[1..6][0], 'p');
      }
    }
  }

  /** What one argument selects by itself. */
  lemma SelectedAlone(a: string)
    ensures Selects(a) ==> Selected(a, ParseArg(UNPARSED, a))
    ensures !Selects(a) ==> ParseArg(UNPARSED, a) == UNPARSED
  {
    hide IsPipe, AnyCase, Lower;
    KeywordTexts(a);
    OptionTexts(a);
  }

  /** The first argument that selects an operation decides, whatever follows; if none does, nothing is parsed. */
  lemma {:induction false} FirstOperationWins(args: seq<string>, k: nat)
    requires k <= |args| && forall i :: 0 <= i < k ==> !Selects(args[i])
    ensures k < |args| && Selects(args[k]) ==> Selected(args[k], ParseArgs(UNPARSED, args))
    ensures k == |args| ==> ParseArgs(UNPARSED, args) == UNPARSED
    decreases k
  {
    hide ParseArg, Selects, SaysPipe, SaysStatus, SaysStop, SaysService;
    if args != [] {
      SelectedAlone(args[0]);
      if k == 0 {
        if Selects(args[0]) {
          ThenDecided(args[0], args[1..]);
        }
      } else {
        FirstOperationWins(args[1..], k - 1);
      }
    }
  }

  lemma ThenDecided(a: string, more: seq<string>)
    requires Selects(a)
    ensures Selected(a, ParseArgs(ParseArg(UNPARSED, a), more))
  {
    hide ParseArg, ParseArgs, AnyCase;
    SelectedAlone(a);
    OtherOperation(ParseArg(UNPARSED, a), more);
  }

  /** The argument that heads the message is the routed command exactly when it is plain. */
  lemma {:induction false} HeadIsCommand(args: seq<string>)
    ensures FirstPlain(args) != "" ==> FirstNonempty(WithoutPipe(args)).Some?
    ensures var head := FirstNonempty(WithoutPipe(args));
            head.Some? ==> (head.value == FirstPlain(args) <==> IsPlain(head.value))
    decreases |args|
  {
    hide IsPipe;
    FirstPlainIsPlain(args);
    if args == [] {
    } else if IsPipe(args[0]) {
      PipeIsOption(args[0]);
      HeadWithoutPipe(args[1..]);
    } else if args[0] == "" {
      HeadIsCommand(args[1..]);
      assert WithoutPipe(args)[1..] == WithoutPipe(args[1..]);
    } else {
      assert WithoutPipe(args)[0] == args[0];
    }
  }

  lemma PipeIsOption(arg: string)
    requires IsPipe(arg)
    ensures IsOption(arg) && !IsPlain(arg)
  {
  }

  lemma {:induction false} HeadWithoutPipe(args: seq<string>)
    ensures FirstPlain(args) != "" ==> FirstNonempty(args).Some?
    ensures FirstNonempty(args).Some? ==>
            (FirstNonempty(args).value == FirstPlain(args) <==> IsPlain(FirstNonempty(args).value))
  {
    FirstPlainIsPlain(args);
    if args != [] && args[0] == "" {
      HeadWithoutPipe(args[1..]);
    }
  }

  // ---- routing and dispatch

  /** icompare */
  predicate SameIgnoringCase(a: string, b: string) {
    |a| == |b| && forall i :: 0 <= i < |a| ==> ToLower(a[i]) == ToLower(b[i])
  }

  lemma SameLower(a: string, b: string)
    ensures SameIgnoringCase(a, b) <==> Lower(a) == Lower(b)
  {
    assert forall i :: 0 <= i < |a| ==> Lower(a)[i] == ToLower(a[i]);
    assert forall i :: 0 <= i < |b| ==> Lower(b)[i] == ToLower(b[i]);
  }

  /** Two characters count as the same if they are, or if one is the capital of the other. */
  lemma SameIgnoringCaseIs(a: string, b: string)
    ensures SameIgnoringCase(a, b) <==>
            |a| == |b| && forall i :: 0 <= i < |a| ==> SameLetter(a[i], b[i]) || SameLetter(b[i], a[i])
  {
  }

  /** The annotated descriptor that is invoked: the first with the command, else the default entry. */
  function FirstMatch(commands: seq<string>, command: string): (r: Option<nat>)
    ensures r.Some? ==> r.value < |commands| && SameIgnoringCase(commands[r.value], command) &&
                        forall j :: 0 <= j < r.value ==> !SameIgnoringCase(commands[j], command)
    ensures r.None? ==> forall j :: 0 <= j < |commands| ==> !SameIgnoringCase(commands[j], command)
  {
    if commands == [] then None
    else if SameIgnoringCase(commands[0], command) then Some(0)
    else
      match FirstMatch(commands[1..], command)
      case None => None
      case Some(k) => Some(k + 1)
  }

  /**
   * get_child_processor_commands; None where a setting without any command makes std::string of a null pointer throw.
   */
  function ChildCommands(setting: string, annotated: seq<string>): Option<set<string>> {
    var tokens := Tokens(Lower(setting), ',');
    if setting != "" && tokens == [] then None
    else Some((set t | t in tokens) + (set k | 0 <= k < |annotated| :: Lower(annotated[k])))
  }

  /** It throws exactly for a setting of nothing but commas. */
  lemma NoCommands(setting: string, annotated: seq<string>)
    ensures ChildCommands(setting, annotated) == None <==> setting != "" && forall c :: c in setting ==> c == ','
  {
    OnlyDelimiters(Lower(setting), ',');
    var s := Lower(setting);
    assert forall i :: 0 <= i < |s| ==> (s[i] == ',' <==> setting[i] == ',');
    AllAre(s, ',');
    AllAre(setting, ',');
  }

  lemma AllAre(s: string, c: char)
    ensures (forall x :: x in s ==> x == c) <==> (forall i :: 0 <= i < |s| ==> s[i] == c)
  {
    if forall x :: x in s ==> x == c {
      assert forall i :: 0 <= i < |s| ==> s[i] in s;
    }
  }

  lemma {:induction false} OnlyDelimiters(s: string, delim: char)
    ensures Tokens(s, delim) == [] <==> forall c :: c in s ==> c == delim
    decreases |s|
  {
    if s != "" {
      assert s[0] in s && forall c :: c in s <==> c == s[0] || c in s[1..];
      if s[0] == delim {
        OnlyDelimiters(s[1..], delim);
      }
    }
  }

  /** The client sends to the launcher's queue. */
  predicate ToLauncher(commands: set<string>, command: string) {
    Lower(command) in commands
  }

  /**
   * A command goes to the launcher exactly if the setting lists it or an annotated descriptor is there for the launcher
   * to pick.
   */
  lemma LauncherHasIt(setting: string, annotated: seq<string>, command: string)
    requires ChildCommands(setting, annotated).Some?
    ensures ToLauncher(ChildCommands(setting, annotated).value, command) <==>
            Lower(command) in Tokens(Lower(setting), ',') || FirstMatch(annotated, command).Some?
  {
    forall k | 0 <= k < |annotated|
      ensures SameIgnoringCase(annotated[k], command) <==> Lower(annotated[k]) == Lower(command)
    {
      SameLower(annotated[k], command);
    }
  }

  lemma KeywordIsClean(a: string)
    requires IsKeyword(a)
    ensures ' ' !in a && '"' !in a
  {
    forall i | 0 <= i < |a|
      ensures a[i] != ' ' && a[i] != '"'
    {
      assert Lower(a)[i] == ToLower(a[i]);
      assert Lower(a)[i] in Lower(a);
    }
  }

  /** The receiver is sent the command where it looks for it. */
  predicate Carries(command: string, uds: string, args: seq<string>)
    requires args != []
  {
    if !IsPipe(uds) then
      if ' ' in uds then Word(Quoted(uds), 1) == Some(command)
      else
        match FirstNonempty(WithoutPipe(args))
        case None => false
        case Some(head) => IsPlain(head) && ' ' !in head && '"' !in head
    else if |args[0]| < |uds| then Word("\"" + args[0], 1) == Some(command)
    else
      var name := args[0][..|uds|];
      if ' ' in name then Word(Quoted(name), 1) == Some(command)
      else FirstNonempty(args[1..]).Some? && Word(Quoted(FirstNonempty(args[1..]).value), 0) == Some(command)
  }

  /**
   * Routing and dispatch agree: with a socket name without spaces, the receiver extracts the command that the client
   * routed by exactly when the first nonempty argument, apart from a pipe option, is plain (no option, not status or
   * stop) and holds no space and no quote. With a space in the name, exactly when the second word of the name happens
   * to be the command. A name that looks like a pipe option is filtered out instead of one, and the first argument
   * stands in its place, cut or padded to its length, which hides that argument or ends the message. The receiver then
   * picks the descriptor that made the client choose its queue.
   */
  lemma RoutingAndDispatchAgree(args: seq<string>, extended: bool, uds: string, setting: string, annotated: seq<string>)
    requires IsCommandOperation(ParseArgs(UNPARSED, args))
    requires uds != "" && NoNull(uds) && forall a :: a in args ==> NoNull(a)
    requires ChildCommands(setting, annotated).Some?
    ensures args != [] && |WithoutPipe([ExtendedInvoke(extended), uds] + args)| >= 2
    ensures var command := ParseArgs(UNPARSED, args).command;
            var extracted := Extracted(Message(Parts(ExtendedInvoke(extended), uds, args)));
            && (extracted == Some(command) <==> Carries(command, uds, args))
            && (extracted == Some(command) ==>
                  (ToLauncher(ChildCommands(setting, annotated).value, command) <==>
                   Lower(command) in Tokens(Lower(setting), ',') || FirstMatch(annotated, extracted.value).Some?))
  {
    hide Extracted, Message, Parts, IsPipe, Tokens, IsKeyword, IsOption, ChildCommands, ToLauncher, ExtendedInvoke,
         WithoutPipe,
         FirstMatch, Unquoted, Word, NoNull;
    var command := ParseArgs(UNPARSED, args).command;
    ParsedCommand(args);
    assert args != [];
    if IsPipe(uds) {
      AgreeOnFirst(args, extended, uds);
    } else {
      AgreeOnName(args, extended, uds);
    }
    LauncherHasIt(setting, annotated, command);
  }

  lemma AgreeOnName(args: seq<string>, extended: bool, uds: string)
    requires args != [] && uds != "" && NoNull(uds) && (forall a :: a in args ==> NoNull(a)) && !IsPipe(uds)
    ensures args != [] && |WithoutPipe([ExtendedInvoke(extended), uds] + args)| >= 2
    ensures Extracted(Message(Parts(ExtendedInvoke(extended), uds, args))) == Some(FirstPlain(args)) <==>
            Carries(FirstPlain(args), uds, args)
  {
    hide Extracted, Message, Parts, IsPipe, Tokens, IsKeyword, IsOption, ExtendedInvoke, WithoutPipe, Unquoted, Word,
         NoNull;
    PartsExact(extended, uds, args);
    ExtendedIsNoPipe(extended);
    FirstPlainIsPlain(args);
    HeadIsCommand(args);
    FirstIsNonempty(WithoutPipe(args));
    FilteredAreArgs(args);
    ExtractedIff(ExtendedInvoke(extended), uds, WithoutPipe(args));
    var head := FirstNonempty(WithoutPipe(args));
    if head.Some? && IsKeyword(head.value) {
      KeywordIsClean(head.value);
    }
  }

  lemma {:induction false} FilteredAreArgs(args: seq<string>)
    ensures forall a :: a in WithoutPipe(args) ==> a in args
  {
    hide IsPipe;
    if args != [] {
      FilteredAreArgs(args[1..]);
      assert forall a :: a in args[1..] ==> a in args;
    }
  }

  lemma AgreeOnFirst(args: seq<string>, extended: bool, uds: string)
    requires args != [] && uds != "" && (forall a :: a in args ==> NoNull(a)) && IsPipe(uds)
    ensures args != [] && |WithoutPipe([ExtendedInvoke(extended), uds] + args)| >= 2
    ensures Extracted(Message(Parts(ExtendedInvoke(extended), uds, args))) == Some(FirstPlain(args)) <==>
            Carries(FirstPlain(args), uds, args)
  {
    hide Extracted, Message, IsPipe, Tokens, ExtendedInvoke, WithoutPipe, Unquoted, Word, Copied, Parts, FirstPlain;
    var ext, command := ExtendedInvoke(extended), FirstPlain(args);
    ExtendedIsNoPipe(extended);
    PartsOnFirst(args, ext, uds);
    assert args[0] in args && forall a :: a in args[1..] ==> a in args;
    if |args[0]| < |uds| {
      ExtractedFromPadded(ext, args[0], |uds|, args[1..]);
    } else {
      var name := args[0][..|uds|];
      assert NoNull(name) by {
        assert forall c :: c in name ==> c in args[0];
      }
      ExtractedIff(ext, name, args[1..]);
    }
  }

  lemma PartsOnFirst(args: seq<string>, ext: string, uds: string)
    requires args != [] && IsPipe(uds) && !IsPipe(ext)
    ensures |WithoutPipe([ext, uds] + args)| >= 2
    ensures Parts(ext, uds, args) == [ext, Copied(args[0], |uds|)] + args[1..]
    ensures |uds| <= |args[0]| ==> Copied(args[0], |uds|) == args[0][..|uds|]
  {
    hide IsPipe, WithoutPipe;
    FilterNames(ext, uds, args);
    CopiedWhole(ext);
    assert ([ext] + args)[2..] == args[1..];
  }

  /** A client that routes by its command while the receiver extracts a part of the socket name. */
  lemma RoutedByName(extended: bool)
    ensures var args := ["-pipe=a b", "cmd"];
            && |WithoutPipe([ExtendedInvoke(extended), "a b"] + args)| >= 2
            && ParseArgs(UNPARSED, args) == Parsed(InvokedCommand, "-pipe=a b", "cmd")
            && Extracted(Message(Parts(ExtendedInvoke(extended), "a b", args))) == Some("b")
  {
    hide IsPipe, ParseArgs, Extracted, Message, Parts, ExtendedInvoke, WithoutPipe, Word;
    var args := ["-pipe=a b", "cmd"];
    NameExample();
    assert args[1..] == ["cmd"];
    PartsExact(extended, "a b", args);
    FilterFirst(args);
    ExtendedIsNoPipe(extended);
    ExtractedIff(ExtendedInvoke(extended), "a b", ["cmd"]);
    WordOfName();
  }

  lemma NameExample()
    ensures IsPipe("-pipe=a b") && !IsPipe("a b")
    ensures ParseArgs(UNPARSED, ["-pipe=a b", "cmd"]) == Parsed(InvokedCommand, "-pipe=a b", "cmd")
  {
    var args := ["-pipe=a b", "cmd"];
    assert "-pipe=a b"[1..] == "pipe=a b" && "pipe=a b"[..5] == "pipe=" && Lower("pipe=") == "pipe=";
    assert Lower("pipe=a b")[0] == 'p' && Lower("cmd")[0] == 'c';
    assert IsPipe(args[0]);
    hide IsPipe;
    assert args[1..] == ["cmd"] && ["cmd"][1..] == [];
    assert ParseArg(UNPARSED, args[0]) == Parsed(InvokedCommand, "-pipe=a b", "");
    assert ParseArg(Parsed(InvokedCommand, "-pipe=a b", ""), "cmd") == Parsed(InvokedCommand, "-pipe=a b", "cmd");
  }

  lemma WordOfName()
    ensures Word(Quoted("a b"), 1) == Some("b")
  {
    hide Tokens;
    TokenBefore("\"a", "b\"", ' ');
    TokenBefore("b\"", "", ' ');
    assert Quoted("a b") == "\"a" + [' '] + "b\"";
    assert Tokens(Quoted("a b"), ' ') == ["\"a", "b\""];
    UnquotedQuote("b");
    assert "b" + "\"" == "b\"" && Unquoted("b") == "b";
    assert Tokens(Quoted("a b"), ' ')[1] == "b\"" && Unquoted("b\"") == "b";
  }

  /** A client that routes by one command while the receiver extracts another argument. */
  lemma RoutedElsewhere(extended: bool)
    ensures var args := ["-pipe=x", "status", "cmd"];
            && |WithoutPipe([ExtendedInvoke(extended), "x"] + args)| >= 2
            && ParseArgs(UNPARSED, args) == Parsed(InvokedCommand, "-pipe=x", "cmd")
            && Extracted(Message(Parts(ExtendedInvoke(extended), "x", args))) == Some("status")
  {
    var args := ["-pipe=x", "status", "cmd"];
    var rest := ["status", "cmd"];
    hide IsPipe, ParseArgs, Extracted, Message, Parts, ExtendedInvoke, WithoutPipe;
    PipeExample();
    ParseExample();
    assert args[1..] == rest;
    PartsExact(extended, "x", args);
    FilterFirst(args);
    ExtendedIsNoPipe(extended);
    ExtractedIff(ExtendedInvoke(extended), "x", rest);
  }

  lemma ParseExample()
    ensures ParseArgs(UNPARSED, ["-pipe=x", "status", "cmd"]) == Parsed(InvokedCommand, "-pipe=x", "cmd")
  {
    hide IsPipe;
    PipeExample();
    var args, p := ["-pipe=x", "status", "cmd"], Parsed(InvokedCommand, "-pipe=x", "");
    assert args[1..] == ["status", "cmd"] && ["status", "cmd"][1..] == ["cmd"] && ["cmd"][1..] == [];
    assert ParseArg(p, "status") == p && ParseArg(p, "cmd") == Parsed(InvokedCommand, "-pipe=x", "cmd");
    assert ParseArgs(p, ["cmd"]) == Parsed(InvokedCommand, "-pipe=x", "cmd");
  }

  lemma PipeExample()
    ensures IsPipe("-pipe=x") && !IsPipe("x") && ParseArg(UNPARSED, "-pipe=x") == Parsed(InvokedCommand, "-pipe=x", "")
    ensures !IsOption("cmd") && IsPlain("cmd") && !IsOption("status") && IsKeyword("status")
  {
    assert "-pipe=x"[1..] == "pipe=x" && "pipe=x"[..5] == "pipe=" && Lower("pipe=") == "pipe=";
    assert Lower("pipe=x")[0] == 'p' && Lower("cmd")[0] == 'c' && Lower("status") == "status";
  }

  /** An empty command is routed and sent too, and the receiver finds nothing to extract. */
  lemma NothingToExtract(extended: bool, uds: string)
    requires OneWord(uds) && NoNull(uds) && !IsPipe(uds)
    ensures |WithoutPipe([ExtendedInvoke(extended), uds] + [""])| >= 2
    ensures ParseArgs(UNPARSED, [""]) == Parsed(Command, "", "")
    ensures Extracted(Message(Parts(ExtendedInvoke(extended), uds, [""]))) == None
  {
    hide Extracted, Message, Parts, IsPipe, ExtendedInvoke;
    EmptyArgument();
    PartsExact(extended, uds, [""]);
    ExtendedIsNoPipe(extended);
    ExtractedIff(ExtendedInvoke(extended), uds, [""]);
  }

  lemma EmptyArgument()
    ensures !IsPipe("") && WithoutPipe([""]) == [""] && FirstNonempty([""]) == None
    ensures ParseArgs(UNPARSED, [""]) == Parsed(Command, "", "")
  {
    assert [""][1..] == [] && |Lower("")| == 0;
  }
}
