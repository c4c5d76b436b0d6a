/** The JVM options of a child process: consolidated by key, compacted in place, and laid out for JNI_CreateJavaVM. */
module JvmOptions {
  import opened Prelude

  // ---- options by key

  predicate EndsKey(c: char) {
    c == '=' || c == ':' || '0' <= c <= '9'
  }

  /** The option up to its first '=', ':' or digit. */
  function KeyOf(arg: string): string {
    if arg == "" || EndsKey(arg[0]) then "" else [arg[0]] + KeyOf(arg[1..])
  }

  /** The key is the longest beginning of the option without any of these characters. */
  lemma {:induction false} KeyIsPrefix(arg: string)
    ensures KeyOf(arg) <= arg
    ensures forall c :: c in KeyOf(arg) ==> c != '=' && c != ':' && !('0' <= c <= '9')
    ensures var k := |KeyOf(arg)|; k < |arg| ==> arg[k] == '=' || arg[k] == ':' || '0' <= arg[k] <= '9'
  {
    if arg != "" {
      KeyIsPrefix(arg[1..]);
    }
  }

  /** The characters that end a key, written out. */
  lemma KeyIsCut(k: string, c: char, rest: string)
    requires forall x :: x in k ==> x != '=' && x != ':' && !('0' <= x <= '9')
    requires c == '=' || c == ':' || '0' <= c <= '9'
    ensures KeyOf(k + [c] + rest) == k && KeyOf(k) == k
  {
    KeyExact(k + [c] + rest, k);
    KeyExact(k, k);
  }

  lemma {:induction false} KeyExact(arg: string, k: string)
    requires k <= arg && (forall x :: x in k ==> !EndsKey(x)) && (|k| < |arg| ==> EndsKey(arg[|k|]))
    ensures KeyOf(arg) == k
    decreases |arg|
  {
    if k != "" {
      assert k[0] in k && arg[0] == k[0];
      KeyExact(arg[1..], k[1..]);
      assert [k[0]] + k[1..] == k;
    }
  }

  /** Of two heap sizes the first one wins, whatever they are. */
  lemma HeapSizeWins(d: string, e: string)
    requires d != "" && e != "" && '0' <= d[0] <= '9' && '0' <= e[0] <= '9'
    ensures KeepFirst(["-Xmx" + d, "-Xmx" + e]) == ["-Xmx" + d]
  {
    assert "-Xmx" + d == "-Xmx" + [d[0]] + d[1..] && "-Xmx" + e == "-Xmx" + [e[0]] + e[1..];
    KeyIsCut("-Xmx", d[0], d[1..]);
    KeyIsCut("-Xmx", e[0], e[1..]);
    SecondIsDropped("-Xmx" + d, "-Xmx" + e);
  }

  predicate HasKey(args: seq<string>, key: string) {
    exists i :: 0 <= i < |args| && KeyOf(args[i]) == key
  }

  /** The stable filter that keeps the first option of each key. */
  function KeepFirst(args: seq<string>): seq<string> {
    if args == [] then []
    else
      var before, last := args[..|args| - 1], args[|args| - 1];
      KeepFirst(before) + (if HasKey(before, KeyOf(last)) then [] else [last])
  }

  /** The places of the options that are kept. */
  function Places(args: seq<string>): seq<nat> {
    if args == [] then []
    else
      var before, last := args[..|args| - 1], args[|args| - 1];
      Places(before) + (if HasKey(before, KeyOf(last)) then [] else [|before|])
  }

  /** These are the places of the options without an earlier one of the same key, in their order. */
  ghost predicate ArePlaces(args: seq<string>, ps: seq<nat>) {
    && (forall j, k :: 0 <= j < k < |ps| ==> ps[j] < ps[k])
    && (forall i: nat :: i in ps <==> i < |args| && !HasKey(args[..i], KeyOf(args[i])))
  }

  /** Kept are exactly the options without an earlier one of the same key, in their order. */
  lemma {:induction false} KeptPlaces(args: seq<string>)
    ensures var ps := Places(args);
            && ArePlaces(args, ps)
            && |ps| == |KeepFirst(args)|
            && forall j :: 0 <= j < |ps| ==> ps[j] < |args| && KeepFirst(args)[j] == args[ps[j]]
  {
    hide HasKey, KeyOf, ArePlaces;
    if args == [] {
      NoPlaces();
    } else {
      var before := args[..|args| - 1];
      KeptPlaces(before);
      PlacesSnoc(args, Places(before));
    }
  }

  lemma NoPlaces()
    ensures ArePlaces([], [])
  {
  }

  lemma PlacesSnoc(args: seq<string>, ps: seq<nat>)
    requires args != [] && ArePlaces(args[..|args| - 1], ps)
    ensures var n := |args| - 1; ArePlaces(args, ps + (if HasKey(args[..n], KeyOf(args[n])) then [] else [n]))
  {
    hide HasKey, KeyOf;
    var n := |args| - 1;
    forall i: nat | i < n
      ensures args[..n][..i] == args[..i] && args[..n][i] == args[i]
    {
    }
    forall j | 0 <= j < |ps|
      ensures ps[j] < n
    {
      assert ps[j] in ps;
    }
  }

  lemma HasKeySnoc(args: seq<string>, last: string, key: string)
    ensures HasKey(args + [last], key) <==> HasKey(args, key) || KeyOf(last) == key
  {
    var all := args + [last];
    assert forall i :: 0 <= i < |args| ==> all[i] == args[i];
    assert all[|args|] == last;
  }

  lemma {:induction false} KeepFirstKeys(args: seq<string>, key: string)
    ensures HasKey(KeepFirst(args), key) <==> HasKey(args, key)
  {
    if args != [] {
      var before, last := args[..|args| - 1], args[|args| - 1];
      KeepFirstKeys(before, key);
      assert args == before + [last];
      HasKeySnoc(before, last, key);
      HasKeySnoc(KeepFirst(before), last, key);
      assert KeepFirst(before) + [] == KeepFirst(before);
    }
  }

  /** The options of b whose key a does not have. */
  function Lacking(a: seq<string>, b: seq<string>): seq<string> {
    if b == [] then []
    else
      var before, last := b[..|b| - 1], b[|b| - 1];
      Lacking(a, before) + (if HasKey(a, KeyOf(last)) then [] else [last])
  }

  /**
   * A child command's options go in front of those of config.ini, so each of its keys wins: what is kept is what is
   * kept of them, and then what is kept of the configured options with other keys.
   */
  lemma {:induction false} OverridesWin(over: seq<string>, config: seq<string>)
    ensures KeepFirst(over + config) == KeepFirst(over) + Lacking(over, KeepFirst(config))
  {
    hide KeyOf, HasKey, KeepFirst, Lacking;
    if config == [] {
      assert over + config == over;
      NothingConfigured(over);
    } else {
      var before, last := config[..|config| - 1], config[|config| - 1];
      OverridesWin(over, before);
      assert over + config == (over + before) + [last] && config == before + [last];
      KeepFirstSnoc(over + before, last);
      KeepFirstSnoc(before, last);
      LackingSnoc(over, KeepFirst(before), last);
      HasKeyAppend(over, before, KeyOf(last));
      Associate(KeepFirst(over), Lacking(over, KeepFirst(before)), [last]);
    }
  }

  lemma NothingConfigured(over: seq<string>)
    ensures KeepFirst(over) + Lacking(over, KeepFirst([])) == KeepFirst(over)
  {
  }

  lemma KeepFirstSnoc(args: seq<string>, last: string)
    ensures KeepFirst(args + [last]) == if HasKey(args, KeyOf(last)) then KeepFirst(args) else KeepFirst(args) + [last]
  {
    assert (args + [last])[..|args|] == args;
  }

  lemma LackingSnoc(a: seq<string>, b: seq<string>, last: string)
    ensures Lacking(a, b + [last]) == if HasKey(a, KeyOf(last)) then Lacking(a, b) else Lacking(a, b) + [last]
  {
    assert (b + [last])[..|b|] == b;
  }

  lemma HasKeyAppend(a: seq<string>, b: seq<string>, key: string)
    ensures HasKey(a + b, key) <==> HasKey(a, key) || HasKey(b, key)
  {
    assert forall i :: 0 <= i < |a| ==> (a + b)[i] == a[i];
    assert forall i :: 0 <= i < |b| ==> (a + b)[|a| + i] == b[i];
  }

  /**
   * The key ends at the first ':', so all options of the form -XX:... have one key. Of two different ones the later is
   * dropped, as of any two options exactly when their keys are equal.
   */
  lemma SecondIsDropped(a: string, b: string)
    ensures KeepFirst([a, b]) == (if KeyOf(a) == KeyOf(b) then [a] else [a, b])
    ensures "-XX:" <= a && "-XX:" <= b ==> KeepFirst([a, b]) == [a]
  {
    assert [a, b][..1] == [a] && [a][..0] == [];
    assert KeepFirst([a]) == [a];
    assert HasKey([a], KeyOf(b)) <==> KeyOf([a][0]) == KeyOf(b);
    XxKey(a);
    XxKey(b);
  }

  lemma XxKey(a: string)
    ensures "-XX:" <= a ==> KeyOf(a) == "-XX"
  {
    if "-XX:" <= a {
      assert a[1..][0] == 'X' && a[1..][1..][0] == 'X' && a[1..][1..][1..][0] == ':';
      assert KeyOf(a[1..][1..][1..]) == "";
      assert KeyOf(a[1..][1..]) == "X";
      assert KeyOf(a[1..]) == "XX";
    }
  }

  // ---- in place

  function NonNull(s: seq<Option<string>>): seq<string> {
    if s == [] then [] else (if s[0].Some? then [s[0].value] else []) + NonNull(s[1..])
  }

  lemma {:induction false} NonNullAppend(a: seq<Option<string>>, b: seq<Option<string>>)
    ensures NonNull(a + b) == NonNull(a) + NonNull(b)
  {
    if a == [] {
      assert a + b == b;
    } else {
      assert (a + b)[1..] == a[1..] + b;
      NonNullAppend(a[1..], b);
    }
  }

  lemma {:induction false} NullsOnly(s: seq<Option<string>>)
    requires forall i :: 0 <= i < |s| ==> s[i] == None
    ensures NonNull(s) == []
  {
    if s != [] {
      NullsOnly(s[1..]);
    }
  }

  lemma {:induction false} NullFree(s: seq<Option<string>>)
    requires forall i :: 0 <= i < |s| ==> s[i].Some?
    ensures |NonNull(s)| == |s| && forall i :: 0 <= i < |s| ==> NonNull(s)[i] == s[i].value
  {
    if s != [] {
      NullFree(s[1..]);
      assert forall i :: 1 <= i < |s| ==> s[i] == s[1..][i - 1];
    }
  }

  /** Moving an entry down over nulls does not change the entries. */
  lemma MoveDown(s: seq<Option<string>>, i: nat, j: nat)
    requires i < j < |s| && forall k :: i <= k < j ==> s[k] == None
    ensures NonNull(s[i := s[j]][j := None]) == NonNull(s)
  {
    hide NonNull;
    var t := s[i := s[j]][j := None];
    var a, m, n, b := s[..i], s[i..j], t[i + 1..j + 1], s[j + 1..];
    MovedParts(s, i, j);
    NullsBetween(m, [s[j]] + b);
    NullsBetween(n, b);
    NonNullAppend([s[j]], n + b);
    NonNullAppend([s[j]], b);
    NonNullAppend(a, m + ([s[j]] + b));
    NonNullAppend(a, [s[j]] + (n + b));
  }

  lemma MovedParts(s: seq<Option<string>>, i: nat, j: nat)
    requires i < j < |s| && forall k :: i <= k < j ==> s[k] == None
    ensures var t := s[i := s[j]][j := None];
            && s == s[..i] + (s[i..j] + ([s[j]] + s[j + 1..]))
            && t == s[..i] + ([s[j]] + (t[i + 1..j + 1] + s[j + 1..]))
            && var n := t[i + 1..j + 1]; forall k :: 0 <= k < |n| ==> n[k] == None
  {
    var t := s[i := s[j]][j := None];
    assert t == t[..i] + ([t[i]] + (t[i + 1..j + 1] + t[j + 1..]));
    assert t[..i] == s[..i] && t[j + 1..] == s[j + 1..];
  }

  lemma NullsBetween(m: seq<Option<string>>, b: seq<Option<string>>)
    requires forall i :: 0 <= i < |m| ==> m[i] == None
    ensures NonNull(m + b) == NonNull(b)
  {
    hide NonNull;
    NonNullAppend(m, b);
    NullsOnly(m);
  }

  /** The two-index loop that moves null entries to the end of the array. */
  method Compact(argv: array<Option<string>>)
    modifies argv
    ensures var kept := NonNull(old(argv[..]));
            && |kept| <= argv.Length
            && (forall k :: 0 <= k < |kept| ==> argv[k] == Some(kept[k]))
            && (forall k :: |kept| <= k < argv.Length ==> argv[k] == None)
  {
    hide NonNull;
    var argc := argv.Length;
    ghost var kept := NonNull(argv[..]);
    if argc == 0 {
      Compacted(argv[..], 0);
      return;
    }
    var i, j := 0, 1;
    while i < argc - 1 && j < argc
      invariant 0 <= i < j <= argc
      invariant NonNull(argv[..]) == kept
      invariant forall k :: 0 <= k < i ==> argv[k].Some?
      invariant forall k :: i < k < j ==> argv[k] == None
      invariant argv[i].Some? ==> j == i + 1
      decreases argc - j
    {
      if argv[i] == None {
        if argv[j] != None {
          MoveDown(argv[..], i, j);
          ghost var moved := argv[..][i := argv[j]][j := None];
          argv[i] := argv[j];
          argv[j] := None;
          assert argv[..] == moved;
        } else {
          j := j + 1;
          continue;
        }
      }
      i := i + 1;
      j := j + 1;
    }
    Compacted(argv[..], if argv[i].Some? then i + 1 else i);
    assert forall k :: 0 <= k < argc ==> argv[..][k] == argv[k];
  }

  lemma Compacted(s: seq<Option<string>>, n: nat)
    requires n <= |s| && (forall k :: 0 <= k < n ==> s[k].Some?) && (forall k :: n <= k < |s| ==> s[k] == None)
    ensures |NonNull(s)| == n && forall k :: 0 <= k < n ==> s[k] == Some(NonNull(s)[k])
  {
    hide NonNull;
    NonNullAppend(s[..n], s[n..]);
    assert s == s[..n] + s[n..];
    NullsOnly(s[n..]);
    NullFree(s[..n]);
  }

  /** consolidate_jvm_options on argv[..argc]; the new argc is the number of options kept. */
  method Consolidate(argv: array<Option<string>>, ghost args: seq<string>) returns (argc: nat, changed: bool)
    requires argv.Length == |args| && forall k :: 0 <= k < |args| ==> argv[k] == Some(args[k])
    modifies argv
    ensures argc == |KeepFirst(args)| <= argv.Length && (changed <==> argc < argv.Length)
    ensures forall k :: 0 <= k < argc ==> argv[k] == Some(KeepFirst(args)[k])
    ensures forall k :: argc <= k < argv.Length ==> argv[k] == None
  {
    argc := argv.Length;
    if argc < 2 {
      FewKept(args);
      return argc, false;
    }
    hide NonNull, KeepFirst;
    var removed := NullDuplicates(argv, args);
    if removed > 0 {
      Compact(argv);
      argc := argc - removed;
      changed := true;
    } else {
      AllThere(argv[..]);
      assert forall k :: 0 <= k < argc ==> argv[..][k] == argv[k];
      changed := false;
    }
  }

  /** The loop over the options: a key seen before makes the entry null. */
  method NullDuplicates(argv: array<Option<string>>, ghost args: seq<string>) returns (removed: nat)
    requires argv.Length == |args| && forall k :: 0 <= k < |args| ==> argv[k] == Some(args[k])
    modifies argv
    ensures NonNull(argv[..]) == KeepFirst(args) && removed == |args| - |KeepFirst(args)|
  {
    hide NonNull, KeepFirst, HasKey, KeyOf;
    var prefixes: set<string> := {};
    removed := 0;
    var i := 0;
    KeptNothing();
    while i < argv.Length
      invariant 0 <= i <= argv.Length
      invariant forall k :: i <= k < argv.Length ==> argv[k] == Some(args[k])
      invariant forall key :: key in prefixes <==> HasKey(args[..i], key)
      invariant NonNull(argv[..i]) == KeepFirst(args[..i])
      invariant removed == i - |KeepFirst(args[..i])|
    {
      var key := KeyOf(argv[i].value);
      assert args[..i + 1] == args[..i] + [args[i]];
      KeepFirstSnoc(args[..i], args[i]);
      ghost var front := argv[..i];
      NonNullSnoc(front, Some(args[i]));
      NonNullSnoc(front, None);
      forall x
        ensures HasKey(args[..i + 1], x) <==> HasKey(args[..i], x) || key == x
      {
        HasKeySnoc(args[..i], args[i], x);
      }
      if key in prefixes {
        argv[i] := None;
        removed := removed + 1;
      } else {
        prefixes := prefixes + {key};
      }
      assert argv[..i + 1] == front + [argv[i]];
      i := i + 1;
    }
    assert args[..i] == args && argv[..i] == argv[..];
  }

  lemma NonNullSnoc(s: seq<Option<string>>, o: Option<string>)
    ensures NonNull(s + [o]) == NonNull(s) + (if o.Some? then [o.value] else [])
    ensures NonNull(s) + [] == NonNull(s)
  {
    NonNullAppend(s, [o]);
    assert [o][1..] == [];
  }

  lemma KeptNothing()
    ensures KeepFirst([]) == [] && NonNull([]) == [] && forall key :: !HasKey([], key)
  {
  }

  lemma FewKept(args: seq<string>)
    requires |args| < 2
    ensures KeepFirst(args) == args
  {
    if args != [] {
      assert args[..0] == [] && args == [args[0]];
    }
  }

  /** As many values as entries: there is no null. */
  lemma {:induction false} AllThere(s: seq<Option<string>>)
    ensures |NonNull(s)| <= |s|
    ensures |NonNull(s)| == |s| ==> forall i :: 0 <= i < |s| ==> s[i] == Some(NonNull(s)[i])
  {
    if s != [] {
      AllThere(s[1..]);
      assert forall i :: 1 <= i < |s| ==> s[i] == s[1..][i - 1];
    }
  }

  // ---- the options handed to the JVM

  const CLASSPATH_OPTION := "-Djava.class.path="
  const CWD_OPTION := "-Duser.dir="
  const BASE_OPTIONS := 3

  /** The class path option made from the CLASSPATH variable, with the user's directory in front. */
  function DefaultClassPath(classpath: string): string {
    CLASSPATH_OPTION + (if classpath == "" then "." else if classpath[0] != '.' then ".:" + classpath else classpath)
  }

  /** The last class path option replaces the default one. */
  function ClassPath(initial: string, args: seq<string>): string {
    if args == [] then initial
    else if CLASSPATH_OPTION <= args[|args| - 1] then args[|args| - 1]
    else ClassPath(initial, args[..|args| - 1])
  }

  /** Neither a class path option nor the working directory, which the launcher sets itself. */
  predicate PassedOn(arg: string) {
    !(CLASSPATH_OPTION <= arg) && !(CWD_OPTION <= arg)
  }

  function PassThrough(args: seq<string>): seq<string> {
    if args == [] then []
    else PassThrough(args[..|args| - 1]) + (if PassedOn(args[|args| - 1]) then [args[|args| - 1]] else [])
  }

  /** The default class path, written out for each kind of CLASSPATH. */
  lemma DefaultClassPathIs(classpath: string)
    ensures classpath == "" ==> DefaultClassPath(classpath) == "-Djava.class.path=."
    ensures classpath != "" && classpath[0] == '.' ==> DefaultClassPath(classpath) == "-Djava.class.path=" + classpath
    ensures classpath != "" && classpath[0] != '.' ==> DefaultClassPath(classpath) == "-Djava.class.path=.:" + classpath
  {
    assert "-Djava.class.path=" + "." == "-Djava.class.path=.";
    assert "-Djava.class.path=" + (".:" + classpath) == "-Djava.class.path=.:" + classpath;
  }

  /** The last class path option wins, whatever stands around it. */
  lemma {:induction false} LastClassPathWins(initial: string, before: seq<string>, path: string, behind: seq<string>)
    requires forall a :: a in behind ==> !("-Djava.class.path=" <= a)
    ensures ClassPath(initial, before + ["-Djava.class.path=" + path] + behind) == "-Djava.class.path=" + path
    ensures ClassPath(initial, behind) == initial
    decreases |behind|
  {
    var args := before + ["-Djava.class.path=" + path] + behind;
    if behind != [] {
      assert behind[|behind| - 1] in behind;
      var less := behind[..|behind| - 1];
      assert args[..|args| - 1] == before + ["-Djava.class.path=" + path] + less;
      assert forall a :: a in less ==> a in behind;
      LastClassPathWins(initial, before, path, less);
    }
  }

  /** All options but the class path and the working directory are passed on. */
  lemma PassedAlone(option: string)
    ensures PassThrough([option]) ==
            if "-Djava.class.path=" <= option || "-Duser.dir=" <= option then [] else [option]
  {
    assert [option][..0] == [];
  }

  /** They keep their order. */
  lemma {:induction false} PassedInOrder(args: seq<string>, more: seq<string>)
    ensures PassThrough(args + more) == PassThrough(args) + PassThrough(more)
    decreases |more|
  {
    hide PassThrough, PassedOn;
    NothingPassed("");
    if more == [] {
      assert args + more == args && PassThrough(args) + [] == PassThrough(args);
    } else {
      var less, last := more[..|more| - 1], more[|more| - 1];
      PassedInOrder(args, less);
      assert args + more == args + less + [last] && more == less + [last];
      PassThroughSnoc(args + less, last, "");
      PassThroughSnoc(less, last, "");
      Associate(PassThrough(args), PassThrough(less), [last]);
    }
  }

  lemma PassThroughSnoc(args: seq<string>, last: string, initial: string)
    ensures PassThrough(args + [last]) == if PassedOn(last) then PassThrough(args) + [last] else PassThrough(args)
    ensures ClassPath(initial, args + [last]) == if CLASSPATH_OPTION <= last then last else ClassPath(initial, args)
  {
    assert (args + [last])[..|args|] == args;
  }

  lemma {:induction false} PassThroughLength(args: seq<string>)
    ensures |PassThrough(args)| <= |args|
  {
    if args != [] {
      PassThroughLength(args[..|args| - 1]);
    }
  }

  /** set_JavaVMOptions: the slots in use are dense, and all others stay null. */
  method SetJavaVMOptions(argc: nat, argv: array<Option<string>>, ghost args: seq<string>, classpath: string,
                          options: array<Option<string>>) returns (n: nat)
    requires argc == |args| <= argv.Length && options.Length == argc + BASE_OPTIONS && options != argv
    requires forall k :: 0 <= k < argc ==> argv[k] == Some(args[k])
    requires forall k :: 0 <= k < options.Length ==> options[k] == None
    modifies options
    ensures n == BASE_OPTIONS + |PassThrough(args)| <= options.Length
    ensures options[0] == Some(ClassPath(DefaultClassPath(classpath), args))
    ensures options[1] == Some("exit") && options[2] == Some("abort")
    ensures forall k :: 0 <= k < |PassThrough(args)| ==> options[BASE_OPTIONS + k] == Some(PassThrough(args)[k])
    ensures forall k :: n <= k < options.Length ==> options[k] == None
  {
    hide PassedOn, ClassPath, PassThrough, DefaultClassPath;
    n := BASE_OPTIONS;
    options[0] := Some(DefaultClassPath(classpath));
    options[1] := Some("exit");
    options[2] := Some("abort");
    var i, j := 0, 0;
    NothingPassed(DefaultClassPath(classpath));
    while i < argc
      invariant 0 <= i <= argc && n == BASE_OPTIONS + j && j == |PassThrough(args[..i])| <= i
      invariant options[0] == Some(ClassPath(DefaultClassPath(classpath), args[..i]))
      invariant options[1] == Some("exit") && options[2] == Some("abort")
      invariant forall k :: BASE_OPTIONS <= k < n ==> options[k] == Some(PassThrough(args[..i])[k - BASE_OPTIONS])
      invariant forall k :: n <= k < options.Length ==> options[k] == None
    {
      var arg := argv[i].value;
      assert args[..i + 1] == args[..i] + [arg];
      PassThroughSnoc(args[..i], arg, DefaultClassPath(classpath));
      Passing(arg);
      options[j + BASE_OPTIONS] := None;
      if CLASSPATH_OPTION <= arg {
        options[0] := Some(arg);
      } else if CWD_OPTION <= arg {
        // the working directory is changed here, and the JVM is not told
      } else {
        options[j + BASE_OPTIONS] := Some(arg);
        j := j + 1;
        n := n + 1;
      }
      i := i + 1;
    }
    assert args[..i] == args;
  }

  lemma NothingPassed(initial: string)
    ensures PassThrough([]) == [] && ClassPath(initial, []) == initial
  {
  }

  lemma Passing(arg: string)
    ensures PassedOn(arg) <==> !(CLASSPATH_OPTION <= arg) && !(CWD_OPTION <= arg)
  {
  }

  /**
   * create_jvm from the parsed options, those of the child command first: consolidation and layout together. The JVM
   * gets each of the command's options by key, and the configured ones with other keys.
   */
  method CreateJvmOptions(over: seq<string>, config: seq<string>, classpath: string)
      returns (options: seq<Option<string>>)
    ensures var kept := KeepFirst(over) + Lacking(over, KeepFirst(config));
            && |options| == BASE_OPTIONS + |PassThrough(kept)|
            && options[..BASE_OPTIONS] ==
               [Some(ClassPath(DefaultClassPath(classpath), kept)), Some("exit"), Some("abort")]
            && forall k :: 0 <= k < |PassThrough(kept)| ==> options[BASE_OPTIONS + k] == Some(PassThrough(kept)[k])
  {
    hide KeepFirst, Lacking, PassThrough, ClassPath, DefaultClassPath;
    var args := over + config;
    var argv := new Option<string>[|args|](i requires 0 <= i < |args| => Some(args[i]));
    var argc, changed := Consolidate(argv, args);
    OverridesWin(over, config);
    ghost var kept := KeepFirst(args);
    var slots := new Option<string>[argc + BASE_OPTIONS](i => None);
    var n := SetJavaVMOptions(argc, argv, kept, classpath, slots);
    options := slots[..n];
    assert options[..BASE_OPTIONS] == [slots[0], slots[1], slots[2]];
    forall k | 0 <= k < |PassThrough(kept)|
      ensures options[BASE_OPTIONS + k] == Some(PassThrough(kept)[k])
    {
      assert slots[BASE_OPTIONS + k] == Some(PassThrough(kept)[k]);
    }
  }
}
