/**
 * The `Commander` struct: a registry of supported options, kept sorted by short form, and the
 * store of arguments that `init` fills from the process's argument list.
 */
module CommanderLib {
  import opened Wrappers
  import opened Strings
  import opened Types
  import opened Registry
  import opened Help
  import opened Parser

  /** How `init` ends: after the last token, or in a panic on a value token it cannot convert. */
  datatype InitOutcome = Completed | Aborted(valueToken: string)

  class Commander {
    /** The registered options, in ascending order of short form. */
    var options: seq<CmdLineOption>
    /** The parsed arguments, keyed by the short form of their option, or by `ExecKey`. */
    var args: map<string, CmdArgument>
    /** Every option passed to `AddOption`, in call order. */
    ghost var added: seq<CmdLineOption>

    /** `options` is a stable sort by short form of the options added so far. */
    ghost predicate Valid()
      reads this`options, this`added
    {
      && SortedByShort(options)
      && multiset(options) == multiset(added)
      && forall k :: KeyFilter(options, k) == KeyFilter(added, k)
    }

    /** `Commander::new`: no options and no arguments. */
    constructor ()
      ensures Valid()
      ensures options == [] && added == [] && args == map[]
    {
      options := [];
      args := map[];
      added := [];
    }

    /**
     * `add_option`: push the new option, then sort the registry by short form again. The new
     * option lands after every option whose short form is no greater than its own.
     */
    method AddOption(shortform: string, longform: string, description: string, valueType: CmdOptionValueType)
      requires Valid()
      modifies this`options, this`added
      ensures Valid()
      ensures added == old(added) + [CmdLineOption(shortform, longform, description, valueType)]
      ensures options == Inserted(old(options), CmdLineOption(shortform, longform, description, valueType))
    {
      var option := CmdLineOption(shortform, longform, description, valueType);
      var before := options;
      ghost var addedBefore := added;
      var pushed := options + [option];
      added := added + [option];
      forall k
        ensures KeyFilter(pushed, k) == KeyFilter(added, k)
      {
        KeyFilterConcat(before, [option], k);
        KeyFilterConcat(addedBefore, [option], k);
      }
      options := SortByShortform(pushed);
      SortedPushIsInserted(before, option, options);
    }

    /** `option_count`: the number of `AddOption` calls so far, duplicates included. */
    function OptionCount(): (n: nat)
      reads this
      requires Valid()
      ensures n == |added|
    {
      assert |multiset(options)| == |multiset(added)|;
      |options|
    }

    /** `get_supported_option` on this registry. */
    function Find(token: string, isLong: bool): Option<CmdLineOption>
      reads this
    {
      FindOption(options, token, isLong)
    }

    /** `help`: the header line, then a line for each option in registry order. */
    method Help() returns (output: string)
      ensures output == HelpText(options)
    {
      output := Header + "\n";
      for i := 0 to |options|
        invariant output == Terminated([Header] + HelpLines(options[..i]))
      {
        var option := options[i];
        ghost var prev := output;
        output := output + "\t--" + option.longform + ", -" + option.shortform;
        output := output + "\t\t" + Tag(option.valueType);
        output := output + "\t\t" + option.description + "\n";
        HelpLinePieces(prev, option);
        HelpTextStep(options, i, prev);
      }
      assert options[..|options|] == options;
    }

    /**
     * `init` over the argument list `raw` (the executable path first): store the path under
     * `ExecKey`, then walk the remaining tokens, storing each resolved flag's argument under its
     * option's short form and reporting the tokens it cannot use. It ends early, in a panic, at
     * the first value token that does not convert to its option's type.
     */
    method Init(raw: seq<string>) returns (outcome: InitOutcome, log: seq<Diagnostic>)
      requires Valid() && |raw| >= 1
      modifies this`args
      ensures Valid()
      ensures args == InitStore(options, old(args), raw)
      ensures log == Reports(Scan(options, raw[1..]))
      ensures outcome == match AbortToken(Scan(options, raw[1..]))
                         case None => Completed
                         case Some(v) => Aborted(v)
    {
      args := args[ExecKey := ExecArgument(raw[0])];
      ghost var start := args;
      log := [];
      var i := 1;
      while i < |raw|
        invariant 1 <= i <= |raw|
        invariant Progress(options, args, log, raw[i..], start, raw[1..])
        decreases |raw| - i
      {
        var arg := raw[i];
        ghost var toks := raw[i..];
        assert toks[0] == arg;
        i := i + 1;
        match Classify(arg)
        case Bare(text) =>
          assert Step(options, toks) == (Report(StrayValue(text)), 1) && toks[1..] == raw[i..];
          Advance(options, args, log, toks, start, raw[1..], Report(StrayValue(text)), 1);
          log := log + [StrayValue(text)];
        case Flag(isLong, name) =>
          match Find(name, isLong)
          case None =>
            assert Step(options, toks) == (Report(UnknownOption(isLong, name)), 1) && toks[1..] == raw[i..];
            Advance(options, args, log, toks, start, raw[1..], Report(UnknownOption(isLong, name)), 1);
            log := log + [UnknownOption(isLong, name)];
          case Some(option) =>
            var current := CmdArgument(option.shortform, NoVal);
            if option.valueType != NoValue && i < |raw| {
              var v := raw[i];
              assert toks[1] == v;
              i := i + 1;
              match Coerce(option.valueType, v)
              case None =>
                assert Step(options, toks) == (Abort(v), 2);
                Finish(options, args, log, toks, start, raw[1..], v, 2);
                outcome := Aborted(v);
                return;
              case Some(value) =>
                current := current.(value := value);
                assert Step(options, toks) == (Store(option.shortform, current), 2) && toks[2..] == raw[i..];
                Advance(options, args, log, toks, start, raw[1..], Store(option.shortform, current), 2);
            } else {
              assert Step(options, toks) == (Store(option.shortform, current), 1) && toks[1..] == raw[i..];
              Advance(options, args, log, toks, start, raw[1..], Store(option.shortform, current), 1);
            }
            args := args[option.shortform := current];
      }
      assert raw[i..] == [];
      outcome := Completed;
    }
  }
}
