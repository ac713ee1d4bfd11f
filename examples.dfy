/**
 * The behaviour the crate's unit tests and its demo binary exercise, stated for concrete
 * registries and argument lists.
 */
module Examples {
  import opened Wrappers
  import Strings
  import opened Numbers
  import opened Types
  import opened Registry
  import opened Help
  import opened Parser
  import opened CommanderLib

  /** Registering `v` and then `h` leaves two options, `h` first. */
  method AddTwoOptions() returns (count: nat, order: seq<string>)
    ensures count == 2
    ensures order == ["h", "v"]
  {
    var cmd := new Commander();
    cmd.AddOption("v", "version", "Prints the version of the application", NoValue);
    cmd.AddOption("h", "help", "Prints this help", NoValue);
    count := cmd.OptionCount();
    assert Strings.Cmp("v", "h") == Strings.Greater;
    assert cmd.options == [CmdLineOption("h", "help", "Prints this help", NoValue),
                           CmdLineOption("v", "version", "Prints the version of the application", NoValue)];
    order := [cmd.options[0].shortform, cmd.options[1].shortform];
  }

  /** The registry of the demo binary, sorted by short form (`BuildDemo` shows `add_option` leaves it so). */
  const Demo: seq<CmdLineOption> := [
    CmdLineOption("b", "balance", "Amount of money in your bank account", Float),
    CmdLineOption("c", "count", "Amount of times to do something", Number),
    CmdLineOption("h", "help", "Show this help", NoValue),
    CmdLineOption("if", "input", "File to use as input", String),
    CmdLineOption("v", "version", "Show the version of this application", NoValue)
  ]

  /** A registry with one `String` option `f`. */
  const FileOnly: seq<CmdLineOption> := [CmdLineOption("f", "file", "File to read", String)]

  /** The demo binary's five `add_option` calls, in its order, leave the registry `Demo`. */
  method BuildDemo() returns (registry: seq<CmdLineOption>, count: nat)
    ensures registry == Demo
    ensures count == 5
  {
    var cmd := new Commander();
    cmd.AddOption(Demo[4].shortform, Demo[4].longform, Demo[4].description, Demo[4].valueType);
    assert cmd.options == [Demo[4]];
    cmd.AddOption(Demo[2].shortform, Demo[2].longform, Demo[2].description, Demo[2].valueType);
    InsertHelp();
    cmd.AddOption(Demo[3].shortform, Demo[3].longform, Demo[3].description, Demo[3].valueType);
    InsertInput();
    cmd.AddOption(Demo[1].shortform, Demo[1].longform, Demo[1].description, Demo[1].valueType);
    InsertCount();
    cmd.AddOption(Demo[0].shortform, Demo[0].longform, Demo[0].description, Demo[0].valueType);
    InsertBalance();
    registry := cmd.options;
    count := cmd.OptionCount();
  }

  /** `h` goes in front of `v`. */
  lemma InsertHelp()
    ensures Inserted([Demo[4]], Demo[2]) == [Demo[2], Demo[4]]
  {
    assert InsertionPoint([Demo[4]], "h") == 0;
  }

  /** `if` goes between `h` and `v`. */
  lemma InsertInput()
    ensures Inserted([Demo[2], Demo[4]], Demo[3]) == [Demo[2], Demo[3], Demo[4]]
  {
    assert Strings.Cmp("h", "if") == Strings.Less;
    assert InsertionPoint([Demo[4]], "if") == 0;
    assert [Demo[2], Demo[4]][1..] == [Demo[4]];
    assert InsertionPoint([Demo[2], Demo[4]], "if") == 1;
  }

  /** `c` goes in front of `h`, `if` and `v`. */
  lemma InsertCount()
    ensures Inserted([Demo[2], Demo[3], Demo[4]], Demo[1]) == Demo[1..]
  {
    assert InsertionPoint([Demo[2], Demo[3], Demo[4]], "c") == 0;
  }

  /** `b` goes in front of all the others. */
  lemma InsertBalance()
    ensures Inserted(Demo[1..], Demo[0]) == Demo
  {
    assert InsertionPoint(Demo[1..], "b") == 0;
  }

  lemma FindC()
    ensures Classify("-c") == Flag(false, "c")
    ensures FindOption(Demo, "c", false) == Some(Demo[1])
  {
    ShortFlag("c");
    assert "-" + "c" == "-c";
    FindFirstMatch(Demo, "c", false, 1);
  }

  lemma ParsesAsNumber(s: string, n: i32)
    requires Decimal(n as int) == s
    ensures ParseI32(s) == Some(n)
  {
    ParseDecimal(n);
  }

  /** An argument list whose only event stores `arg` under `key` leaves the executable path and that entry. */
  lemma StoredAlone(opts: seq<CmdLineOption>, raw: seq<string>, key: string, arg: CmdArgument)
    requires |raw| >= 1 && Scan(opts, raw[1..]) == [Store(key, arg)]
    ensures InitStore(opts, map[], raw) == map[ExecKey := ExecArgument(raw[0]), key := arg]
  {
    var evs := Scan(opts, raw[1..]);
    var m := map[ExecKey := ExecArgument(raw[0])];
    assert evs[0] == Store(key, arg) && evs[1..] == [];
    assert Apply(m, evs) == Apply(Effect(m, Store(key, arg)), []);
  }

  /** An argument list whose events store `a1` and then `a2` under `key` leaves `a2` there. */
  lemma StoredTwice(opts: seq<CmdLineOption>, raw: seq<string>, key: string, a1: CmdArgument, a2: CmdArgument)
    requires |raw| >= 1 && Scan(opts, raw[1..]) == [Store(key, a1), Store(key, a2)]
    ensures InitStore(opts, map[], raw) == map[ExecKey := ExecArgument(raw[0]), key := a2]
  {
    var evs := Scan(opts, raw[1..]);
    var m := map[ExecKey := ExecArgument(raw[0])];
    assert evs[0] == Store(key, a1) && evs[1..] == [Store(key, a2)] && evs[1..][1..] == [];
    assert Apply(m, evs) == Apply(Effect(m, Store(key, a1)), [Store(key, a2)]);
    assert Apply(Effect(m, Store(key, a1)), [Store(key, a2)]) == Apply(m[key := a1][key := a2], []);
  }

  lemma CountScan()
    ensures Scan(Demo, ["-c", "10"]) == [Store("c", CmdArgument("c", NumberVal(10)))]
  {
    FindC();
    ParsesAsNumber("10", 10);
    ValueFlagTakesNext(Demo, "-c", "10", [], Demo[1]);
    assert ["-c", "10"] + [] == ["-c", "10"];
  }

  /** `-c 10` stores the number 10 under `c`. */
  lemma NumberExample()
    ensures InitStore(Demo, map[], ["exec", "-c", "10"])
         == map[ExecKey := ExecArgument("exec"), "c" := CmdArgument("c", NumberVal(10))]
  {
    var raw := ["exec", "-c", "10"];
    assert raw[1..] == ["-c", "10"];
    CountScan();
    StoredAlone(Demo, raw, "c", CmdArgument("c", NumberVal(10)));
  }

  lemma FloatLiteral()
    ensures IsF32Literal("0.10")
  {
    var v := "0.10";
    assert LowerAsciiString(v) == v;
    assert Unsigned(v) == v;
    assert Strings.IndexOf(v, 'e') == 4;
    assert v[..4] == v;
    assert Strings.IndexOf(v, '.') == 1;
    assert v[..1] == "0" && v[2..] == "10";
  }

  /** `--balance 0.10` stores the literal under the short form `b`. */
  lemma FloatExample()
    ensures InitStore(Demo, map[], ["exec", "--balance", "0.10"])
         == map[ExecKey := ExecArgument("exec"), "b" := CmdArgument("b", FloatVal("0.10"))]
  {
    var raw := ["exec", "--balance", "0.10"];
    assert Scan(Demo, raw[1..]) == [Store("b", CmdArgument("b", FloatVal("0.10")))] by {
      LongFlag("balance");
      assert "--" + "balance" == "--balance";
      FindFirstMatch(Demo, "balance", true, 0);
      FloatLiteral();
      ValueFlagTakesNext(Demo, "--balance", "0.10", [], Demo[0]);
      assert raw[1..] == ["--balance", "0.10"] + [];
    }
    StoredAlone(Demo, raw, "b", CmdArgument("b", FloatVal("0.10")));
  }

  /** `-f textfile.txt` with a `String` option `f` stores the text verbatim. */
  lemma StringExample()
    ensures InitStore(FileOnly, map[], ["exec", "-f", "textfile.txt"])
         == map[ExecKey := ExecArgument("exec"), "f" := CmdArgument("f", StringVal("textfile.txt"))]
  {
    var raw := ["exec", "-f", "textfile.txt"];
    assert Scan(FileOnly, raw[1..]) == [Store("f", CmdArgument("f", StringVal("textfile.txt")))] by {
      ShortFlag("f");
      assert "-" + "f" == "-f";
      FindFirstMatch(FileOnly, "f", false, 0);
      ValueFlagTakesNext(FileOnly, "-f", "textfile.txt", [], FileOnly[0]);
      assert raw[1..] == ["-f", "textfile.txt"] + [];
    }
    StoredAlone(FileOnly, raw, "f", CmdArgument("f", StringVal("textfile.txt")));
  }

  /** The executable path alone leaves one entry. */
  lemma ExecOnlyExample()
    ensures |InitStore(Demo, map[], ["exec"])| == 1
  {
    assert InitStore(Demo, map[], ["exec"]) == map[ExecKey := ExecArgument("exec")];
  }

  lemma FindZ()
    ensures Classify("-z") == Flag(false, "z")
    ensures FindOption(Demo, "z", false).None?
  {
    ShortFlag("z");
    assert "-" + "z" == "-z";
    assert forall i :: 0 <= i < |Demo| ==> !Matches(Demo[i], "z", false);
  }

  /** An unregistered `-z` is reported and stores nothing. */
  lemma UnknownFlagExample()
    ensures InitStore(Demo, map[], ["exec", "-z"]) == map[ExecKey := ExecArgument("exec")]
    ensures Reports(Scan(Demo, ["-z"])) == [UnknownOption(false, "z")]
    ensures Message(UnknownOption(false, "z")) == "[BAD] O(S): z"
  {
    FindZ();
    var m := map[ExecKey := ExecArgument("exec")];
    IgnoredToken(Demo, "-z", [], m);
    assert ["-z"] + [] == ["exec", "-z"][1..];
  }

  lemma TwoCountsScan()
    ensures Scan(Demo, ["-c", "1", "-c", "2"])
         == [Store("c", CmdArgument("c", NumberVal(1))), Store("c", CmdArgument("c", NumberVal(2)))]
  {
    FindC();
    ParsesAsNumber("1", 1);
    ParsesAsNumber("2", 2);
    ValueFlagTakesNext(Demo, "-c", "2", [], Demo[1]);
    ValueFlagTakesNext(Demo, "-c", "1", ["-c", "2"], Demo[1]);
    assert ["-c", "1"] + ["-c", "2"] == ["-c", "1", "-c", "2"];
  }

  /** The second `-c` wins. */
  lemma LastOccurrenceExample()
    ensures InitStore(Demo, map[], ["exec", "-c", "1", "-c", "2"])
         == map[ExecKey := ExecArgument("exec"), "c" := CmdArgument("c", NumberVal(2))]
  {
    var raw := ["exec", "-c", "1", "-c", "2"];
    assert raw[1..] == ["-c", "1", "-c", "2"];
    TwoCountsScan();
    StoredTwice(Demo, raw, "c", CmdArgument("c", NumberVal(1)), CmdArgument("c", NumberVal(2)));
  }

  /** `-c ten` panics at `ten`, leaving only the executable path stored. */
  lemma BadNumberExample()
    ensures AbortToken(Scan(Demo, ["-c", "ten"])) == Some("ten")
    ensures InitStore(Demo, map[], ["exec", "-c", "ten"]) == map[ExecKey := ExecArgument("exec")]
  {
    FindC();
    assert !IsDigit("ten"[0]);
    BadNumberAborts(Demo, "-c", "ten", [], Demo[1]);
  }
}
