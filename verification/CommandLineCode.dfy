/** The loops that parse, filter, flatten and tokenize the command line in place. */
module CommandLineCode {
  import opened Prelude
  import opened CommandLine

  /**
   * The loop over argv that selects the operation: the first argument that selects one, with the first plain argument.
   */
  method ParseOperation(args: seq<string>) returns (p: Parsed)
    ensures p == ParseArgs(UNPARSED, args)
    ensures forall k: nat :: SelectsFirst(args, k) ==> Selected(args[k], p)
    ensures p == UNPARSED <==> forall i :: 0 <= i < |args| ==> !Selects(args[i])
    ensures IsCommandOperation(p) ==> p.command == FirstPlain(args)
  {
    hide IsPipe;
    var operation, pipeOption, command := NoOperation, "", "";
    var i := 0;
    while i < |args|
      invariant 0 <= i <= |args|
      invariant ParseArgs(UNPARSED, args) == ParseArgs(Parsed(operation, pipeOption, command), args[i..])
    {
      var arg := args[i];
      assert args[i..][1..] == args[i + 1..];
      i := i + 1;
      if IsOption(arg) {
        if Lower(arg[1..]) == "service" {
          if operation == NoOperation {
            operation := Service;
          }
        } else if IsPipe(arg) {
          if operation == NoOperation {
            operation := InvokedCommand;
            pipeOption := arg;
          }
        }
      } else if Lower(arg) == "status" {
        if operation == NoOperation {
          operation, command := Status, "status";
        }
      } else if Lower(arg) == "stop" {
        if operation == NoOperation {
          operation, command := Stop, "stop";
        }
      } else if operation == NoOperation {
        operation, command := Command, arg;
      } else if command == "" {
        command := arg;
      }
    }
    p := Parsed(operation, pipeOption, command);
    OperationSelected(args, p);
  }

  lemma OperationSelected(args: seq<string>, p: Parsed)
    requires p == ParseArgs(UNPARSED, args)
    ensures forall k: nat :: SelectsFirst(args, k) ==> Selected(args[k], p)
    ensures p == UNPARSED <==> forall i :: 0 <= i < |args| ==> !Selects(args[i])
    ensures IsCommandOperation(p) ==> p.command == FirstPlain(args)
  {
    hide ParseArgs, FirstPlain, SaysService, SaysPipe, SaysStatus, SaysStop;
    forall k: nat | SelectsFirst(args, k)
      ensures Selected(args[k], p)
    {
      FirstOperationWins(args, k);
    }
    if IsCommandOperation(p) {
      ParsedCommand(args);
    }
    if forall i :: 0 <= i < |args| ==> !Selects(args[i]) {
      FirstOperationWins(args, |args|);
    } else {
      var k := FirstSelecting(args);
      assert Selected(args[k], p);
      KeywordTexts(args[k]);
    }
  }

  lemma {:induction false} FirstSelecting(args: seq<string>) returns (k: nat)
    requires exists i :: 0 <= i < |args| && Selects(args[i])
    ensures SelectsFirst(args, k)
    decreases |args|
  {
    hide Selects;
    if Selects(args[0]) {
      k := 0;
    } else {
      k := FirstSelecting(args[1..]);
      k := k + 1;
    }
  }

  /** argv with its null sentinel: the entries below argc are arguments, the entry at argc is null. */
  ghost predicate IsArgv(argv: array<Option<string>>, argc: nat)
    reads argv
  {
    argc < argv.Length && argv[argc] == None && forall i :: 0 <= i < argc ==> argv[i].Some?
  }

  ghost function Args(argv: array<Option<string>>, argc: nat): seq<string>
    reads argv
    requires IsArgv(argv, argc)
  {
    seq(argc, i requires 0 <= i < argc reads argv requires IsArgv(argv, argc) => argv[i].value)
  }

  /** Removes the first pipe option by shifting the later entries, sentinel included, one place down. */
  method FilterPipe(argv: array<Option<string>>, argc: nat) returns (n: nat)
    requires IsArgv(argv, argc)
    modifies argv
    ensures n <= argc && IsArgv(argv, n) && Args(argv, n) == WithoutPipe(old(Args(argv, argc)))
  {
    hide IsPipe, WithoutPipe;
    ghost var was := Args(argv, argc);
    var j := 0;
    while j < argc
      invariant 0 <= j <= argc
      invariant forall i :: 0 <= i < j ==> !IsPipe(was[i])
    {
      assert argv[j].value == was[j];
      if IsPipe(argv[j].value) {
        Shift(argv, j, argc);
        FirstPipe(was, j);
        return argc - 1;
      }
      j := j + 1;
    }
    NoPipe(was);
    n := argc;
  }

  method Shift(argv: array<Option<string>>, j: nat, argc: nat)
    requires IsArgv(argv, argc) && j < argc
    modifies argv
    ensures IsArgv(argv, argc - 1)
    ensures Args(argv, argc - 1) == old(Args(argv, argc))[..j] + old(Args(argv, argc))[j + 1..]
  {
    ghost var was := Args(argv, argc);
    var k := j;
    while k < argc
      invariant j <= k <= argc
      invariant forall i :: 0 <= i < argv.Length && (i < j || i >= k) ==> argv[i] == old(argv[i])
      invariant forall i :: j <= i < k ==> argv[i] == old(argv[i + 1])
    {
      argv[k] := argv[k + 1];
      k := k + 1;
    }
    ghost var now, goal := Args(argv, argc - 1), was[..j] + was[j + 1..];
    forall i | 0 <= i < argc - 1
      ensures now[i] == goal[i]
    {
      assert goal[i] == was[if i < j then i else i + 1];
    }
  }

  lemma {:induction false} FirstPipe(args: seq<string>, j: nat)
    requires j < |args| && IsPipe(args[j]) && forall i :: 0 <= i < j ==> !IsPipe(args[i])
    ensures WithoutPipe(args) == args[..j] + args[j + 1..]
    decreases j
  {
    hide IsPipe;
    if j > 0 {
      FirstPipe(args[1..], j - 1);
      assert args[..j] == [args[0]] + args[1..][..j - 1];
    }
  }

  lemma {:induction false} NoPipe(args: seq<string>)
    requires forall i :: 0 <= i < |args| ==> !IsPipe(args[i])
    ensures WithoutPipe(args) == args
    decreases |args|
  {
    hide IsPipe;
    if args != [] {
      NoPipe(args[1..]);
    }
  }

  /**
   * The bytes that the parts take with quotes and a space each, empty ones included: the buffer without its terminator.
   */
  function Room(parts: seq<string>): nat
    decreases |parts|
  {
    if parts == [] then 0 else |parts[0]| + 3 + Room(parts[1..])
  }

  lemma {:induction false} RoomSnoc(parts: seq<string>, part: string)
    ensures Room(parts + [part]) == Room(parts) + |part| + 3
    ensures Flat(parts + [part]) == Flat(parts) + (if part == "" then "" else "\"" + part + "\" ")
    decreases |parts|
  {
    if parts == [] {
      assert parts + [part] == [part] && [part][1..] == [];
    } else {
      assert (parts + [part])[1..] == parts[1..] + [part];
      RoomSnoc(parts[1..], part);
    }
  }

  lemma {:induction false} RoomAppend(a: seq<string>, b: seq<string>)
    ensures Room(a + b) == Room(a) + Room(b)
    decreases |a|
  {
    if a == [] {
      assert a + b == b;
    } else {
      assert (a + b)[1..] == a[1..] + b;
      RoomAppend(a[1..], b);
    }
  }

  /** strncpy(buf + pos, src, n) */
  method CopyPadded(buf: array<char>, pos: nat, src: string, n: nat)
    requires pos + n <= buf.Length
    modifies buf
    ensures buf[..pos + n] == old(buf[..pos]) + Copied(src, n)
  {
    var i := 0;
    while i < n
      invariant 0 <= i <= n
      invariant buf[..pos] == old(buf[..pos])
      invariant forall p :: pos <= p < pos + i ==> buf[p] == (if p - pos < |src| then src[p - pos] else '\0')
    {
      buf[pos + i] := if i < |src| then src[i] else '\0';
      i := i + 1;
    }
    forall k | 0 <= k < n
      ensures buf[pos..pos + n][k] == Copied(src, n)[k]
    {
      assert buf[pos..pos + n][k] == buf[pos + k];
    }
    assert buf[pos..pos + n] == Copied(src, n);
    assert buf[..pos + n] == buf[..pos] + buf[pos..pos + n];
  }

  /** One quoted argument and a space, at the moving pointer. */
  method PutQuoted(buf: array<char>, pos: nat, src: string, n: nat) returns (bufpos: nat)
    requires pos + n + 3 <= buf.Length
    modifies buf
    ensures bufpos == pos + n + 3
    ensures buf[..bufpos] == old(buf[..pos]) + ("\"" + Copied(src, n) + "\" ")
  {
    hide Copied;
    bufpos := pos;
    buf[bufpos] := '"';
    bufpos := bufpos + 1;
    assert buf[..bufpos] == old(buf[..pos]) + "\"";
    CopyPadded(buf, bufpos, src, n);
    bufpos := bufpos + n;
    ghost var written := buf[..bufpos];
    buf[bufpos] := '"';
    bufpos := bufpos + 1;
    buf[bufpos] := ' ';
    bufpos := bufpos + 1;
    assert buf[..bufpos] == written + "\" ";
  }

  /**
   * The part of send_flattened_argv_mq_msg behind the filter: sizes and buffer, then the writes, which all stay inside
   * the buffer. The message is what stands before the terminator.
   */
  method Flatten(ext: string, uds: string, dup: seq<string>) returns (message: string)
    requires ext != "" && |dup| >= 2
    ensures message == Message([Copied(dup[0], |ext|), Copied(dup[1], |uds|)] + dup[2..])
  {
    hide Copied, Flat, Room;
    var argc := |dup|;
    ghost var parts := [Copied(dup[0], |ext|), Copied(dup[1], |uds|)] + dup[2..];
    var sizes := seq(argc, i requires 0 <= i < argc => if i == 0 then |ext| else if i == 1 then |uds| else |dup[i]|);
    PartSizes(ext, uds, dup);
    var bufSize := SumSizes(sizes, parts);
    bufSize := bufSize + 1;
    var buf := new char[bufSize];
    buf[0] := '\0';
    var sum := PutParts(buf, dup, sizes, parts);
    var bufpos := sum - 1;
    ghost var all := buf[..sum];
    buf[bufpos] := '\0';
    assert buf[..bufpos] == all[..bufpos];
    message := buf[..sum - 1];
  }

  /** The loop that writes the nonempty parts; sum is where the pointer stands behind them. */
  method PutParts(buf: array<char>, dup: seq<string>, sizes: seq<nat>, ghost parts: seq<string>) returns (sum: nat)
    requires |parts| == |sizes| == |dup| && Room(parts) < buf.Length
    requires forall i :: 0 <= i < |dup| ==> sizes[i] == |parts[i]| && parts[i] == Copied(dup[i], sizes[i])
    modifies buf
    ensures sum == |Flat(parts)| <= Room(parts) && buf[..sum] == Flat(parts)
    ensures |sizes| > 0 && sizes[0] > 0 ==> sum > 0
  {
    hide Copied, Flat, Room;
    var bufpos := 0;
    sum := 0;
    FlatNothing();
    var i := 0;
    while i < |dup|
      invariant 0 <= i <= |dup| && bufpos == sum == |Flat(parts[..i])| <= Room(parts[..i]) < buf.Length
      invariant buf[..bufpos] == Flat(parts[..i])
      invariant i > 0 && sizes[0] > 0 ==> sum > 0
    {
      var n := sizes[i];
      assert parts[..i + 1] == parts[..i] + [parts[i]] && parts == parts[..i + 1] + parts[i + 1..];
      RoomSnoc(parts[..i], parts[i]);
      RoomAppend(parts[..i + 1], parts[i + 1..]);
      if n != 0 {
        bufpos := PutQuoted(buf, bufpos, dup[i], n);
        sum := sum + (n + 3);
      }
      i := i + 1;
    }
    assert parts[..i] == parts;
  }

  lemma FlatNothing()
    ensures Flat([]) == "" && Room([]) == 0
  {
  }

  lemma PartSizes(ext: string, uds: string, dup: seq<string>)
    requires |dup| >= 2
    ensures |Copied(dup[0], |ext|)| == |ext| && |Copied(dup[1], |uds|)| == |uds|
    ensures forall i :: 2 <= i < |dup| ==> Copied(dup[i], |dup[i]|) == dup[i]
  {
  }

  /** The loop that computes bufSize. */
  method SumSizes(sizes: seq<nat>, ghost parts: seq<string>) returns (bufSize: nat)
    requires |sizes| == |parts| && forall i :: 0 <= i < |sizes| ==> sizes[i] == |parts[i]|
    ensures bufSize == Room(parts)
  {
    bufSize := 0;
    var i := 0;
    while i < |sizes|
      invariant 0 <= i <= |sizes| && bufSize == Room(parts[..i])
    {
      assert parts[..i + 1] == parts[..i] + [parts[i]];
      RoomSnoc(parts[..i], parts[i]);
      bufSize := bufSize + (sizes[i] + 3);
      i := i + 1;
    }
    assert parts[..i] == parts;
  }

  /** The duplicate of argv with the two names in front instead of the program path. */
  method Duplicate(argv: seq<string>, ext: string, uds: string) returns (dup: array<Option<string>>)
    requires |argv| >= 1
    ensures fresh(dup) && IsArgv(dup, |argv| + 1) && Args(dup, |argv| + 1) == [ext, uds] + argv[1..]
  {
    var argc := |argv| + 1;
    dup := new Option<string>[argc + 1](i => None);
    dup[0] := Some(ext);
    dup[1] := Some(uds);
    var i := 2;
    while i < argc
      invariant 2 <= i <= argc && dup[0] == Some(ext) && dup[1] == Some(uds)
      invariant forall k :: 2 <= k < i ==> dup[k] == Some(argv[k - 1])
      invariant forall k :: i <= k <= argc ==> dup[k] == None
    {
      dup[i] := Some(argv[i - 1]);
      i := i + 1;
    }
    var args := [ext, uds] + argv[1..];
    assert forall k :: 0 <= k < argc ==> dup[k] == Some(args[k]);
    assert Args(dup, argc) == args;
  }

  /** The entries below argc. */
  method Entries(argv: array<Option<string>>, argc: nat) returns (args: seq<string>)
    requires IsArgv(argv, argc)
    ensures args == Args(argv, argc)
  {
    args := [];
    var i := 0;
    while i < argc
      invariant 0 <= i <= argc && |args| == i
      invariant forall k :: 0 <= k < i ==> args[k] == Args(argv, argc)[k]
    {
      args := args + [argv[i].value];
      i := i + 1;
    }
  }

  /** send_flattened_argv_mq_msg up to the sending: duplicate, filter in place, flatten. argv[0] is the program path. */
  method FlattenArgv(argv: seq<string>, extended: bool, uds: string) returns (message: string)
    requires |argv| >= 1 && uds != "" && (|argv| == 1 ==> !IsPipe(uds))
    ensures |WithoutPipe([ExtendedInvoke(extended), uds] + argv[1..])| >= 2
    ensures message == Message(Parts(ExtendedInvoke(extended), uds, argv[1..]))
  {
    hide IsPipe, Copied, Message, WithoutPipe;
    var ext := ExtendedInvoke(extended);
    ExtendedIsNoPipe(extended);
    var dup := Duplicate(argv, ext, uds);
    var argc := FilterPipe(dup, |argv| + 1);
    FilterNames(ext, uds, argv[1..]);
    var kept := Entries(dup, argc);
    message := Flatten(ext, uds, kept);
  }

  /** strtok_r over one string. */
  class Tokenizer {
    const text: string
    var save: nat

    ghost predicate Valid()
      reads this
    {
      save <= |text|
    }

    constructor (text: string)
      ensures Valid() && this.text == text && save == 0
    {
      this.text := text;
      save := 0;
    }

    method Skip(delim: char)
      requires Valid()
      modifies this
      ensures Valid() && old(save) <= save && (save < |text| ==> text[save] != delim)
      ensures Tokens(old(text[save..]), delim) == Tokens(text[save..], delim)
    {
      while save < |text| && text[save] == delim
        invariant old(save) <= save <= |text|
        invariant Tokens(old(text[save..]), delim) == Tokens(text[save..], delim)
      {
        assert text[save..][1..] == text[save + 1..];
        save := save + 1;
      }
    }

    method Next(delim: char) returns (token: Option<string>)
      requires Valid()
      modifies this
      ensures Valid() && save >= old(save)
      ensures Tokens(old(text[save..]), delim) ==
              (if token.Some? then [token.value] else []) + Tokens(text[save..], delim)
      ensures if token.Some? then save > old(save) else Tokens(text[save..], delim) == []
    {
      hide Find, Tokens;
      Skip(delim);
      if save == |text| {
        Token("", delim);
        assert text[save..] == "";
        return None;
      }
      ghost var before := text[save..];
      var t := TakeToken(delim);
      Token(before, delim);
      token := Some(t);
    }

    /** The characters up to the next delimiter. */
    method TakeToken(delim: char) returns (token: string)
      requires Valid() && save < |text| && text[save] != delim
      modifies this
      ensures Valid() && save > old(save)
      ensures var k := Find(old(text[save..]), delim);
              token == old(text[save..])[..k] && text[save..] == old(text[save..])[k..]
    {
      hide Find;
      var start := save;
      while save < |text| && text[save] != delim
        invariant start <= save <= |text| && delim !in text[start..save]
        invariant save == start ==> save < |text| && text[save] != delim
      {
        assert text[start..save + 1] == text[start..save] + [text[save]];
        save := save + 1;
      }
      ghost var rest := text[start..];
      assert rest[..save - start] == text[start..save] && rest[save - start..] == text[save..];
      FindExact(rest, delim, save - start);
      token := text[start..save];
    }
  }

  /** get_child_processor_commands; None where the first token is null. */
  method GetChildProcessorCommands(setting: string, annotated: seq<string>) returns (r: Option<set<string>>)
    ensures r == ChildCommands(setting, annotated)
  {
    hide Tokens;
    var cmdsSet: set<string> := {};
    if setting != "" {
      var tokenizer := new Tokenizer(Lower(setting));
      assert tokenizer.text[tokenizer.save..] == Lower(setting);
      var tok := tokenizer.Next(',');
      if tok == None {
        return None;
      }
      cmdsSet := {tok.value};
      ghost var found := [tok.value];
      tok := tokenizer.Next(',');
      while tok.Some?
        invariant tokenizer.Valid() && fresh(tokenizer)
        invariant Tokens(Lower(setting), ',') ==
                  found + (if tok.Some? then [tok.value] else []) + Tokens(tokenizer.text[tokenizer.save..], ',')
        invariant tok.None? ==> Tokens(tokenizer.text[tokenizer.save..], ',') == []
        invariant cmdsSet == set t | t in found
        decreases |tokenizer.text| - tokenizer.save, tok.Some?
      {
        cmdsSet := cmdsSet + {tok.value};
        found := found + [tok.value];
        tok := tokenizer.Next(',');
      }
      assert found == Tokens(Lower(setting), ',');
    } else {
      NoSetting();
    }
    var k := 0;
    ghost var configured := cmdsSet;
    assert configured == set t | t in Tokens(Lower(setting), ',');
    assert setting != "" ==> Tokens(Lower(setting), ',') != [];
    while k < |annotated|
      invariant 0 <= k <= |annotated|
      invariant cmdsSet == configured + set i | 0 <= i < k :: Lower(annotated[i])
    {
      cmdsSet := cmdsSet + {Lower(annotated[k])};
      k := k + 1;
    }
    r := Some(cmdsSet);
  }

  lemma NoSetting()
    ensures Tokens(Lower(""), ',') == []
  {
  }

  /** The loop over the annotated descriptors in handle_launcher_msg. */
  method PickDescriptor(commands: seq<string>, command: string) returns (r: Option<nat>)
    ensures r == FirstMatch(commands, command)
  {
    var k := 0;
    while k < |commands|
      invariant 0 <= k <= |commands|
      invariant forall j :: 0 <= j < k ==> !SameIgnoringCase(commands[j], command)
    {
      if SameIgnoringCase(commands[k], command) {
        return Some(k);
      }
      k := k + 1;
    }
    r := None;
  }
}
