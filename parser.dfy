/**
 * What `Commander::init` does with the argument list, as pure functions: each token after the
 * executable path is classified, resolved against the registry and turned into an event
 * (store an argument, report a diagnostic, or abort on an unparsable value); the argument store
 * is the result of applying the store events in order.
 */
module Parser {
  import opened Wrappers
  import opened Strings
  import opened Numbers
  import opened Types
  import opened Registry

  /** The key under which `init` stores the executable path. */
  const ExecKey: string := "__exec__"

  /** The entry `init` stores for the executable path. */
  function ExecArgument(path: string): CmdArgument
  {
    CmdArgument(ExecKey, StringVal(path))
  }

  /** How `init` reads one token: a flag (long or short) with its name, or a bare value. */
  datatype Token = Flag(isLong: bool, name: string) | Bare(text: string)

  /**
   * A token starting with `--` is a long flag named by what follows those two characters; else
   * one starting with `-` is a short flag named by what follows it; anything else is bare.
   */
  function Classify(tok: string): (t: Token)
    ensures t.Flag? <==> StartsWith(tok, "-")
    ensures t.Flag? ==> (t.isLong <==> StartsWith(tok, "--"))
    ensures t.Flag? ==> (if t.isLong then "--" else "-") + t.name == tok
    ensures t.Bare? ==> t.text == tok
  {
    if StartsWith(tok, "--") then Flag(true, tok[2..])
    else if StartsWith(tok, "-") then Flag(false, tok[1..])
    else Bare(tok)
  }

  /** `-name` is read back as the short flag `name`, unless `name` itself starts with `-`. */
  lemma ShortFlag(name: string)
    requires name == [] || name[0] != '-'
    ensures Classify("-" + name) == Flag(false, name)
  {
    var tok := "-" + name;
    assert tok[1..] == name;
  }

  /** `--name` is read back as the long flag `name`. */
  lemma LongFlag(name: string)
    ensures Classify("--" + name) == Flag(true, name)
  {
    var tok := "--" + name;
    assert tok[..2] == "--" && tok[2..] == name;
  }

  /**
   * The value of a value-typed option made from the token after its flag; `None` where the
   * source's `parse().unwrap()` panics.
   */
  function Coerce(t: CmdOptionValueType, v: string): (r: Option<CmdArgumentValue>)
    requires t != NoValue
    ensures r.Some? ==> Conforms(r.value, t) && !r.value.NoVal?
    ensures t == String ==> r == Some(StringVal(v))
    ensures t == Number ==> (r.Some? <==> ParseI32(v).Some?)
    ensures t == Number && r.Some? ==> r.value == NumberVal(ParseI32(v).value)
    ensures t == Float ==> (r.Some? <==> IsF32Literal(v))
    ensures t == Float && r.Some? ==> r.value == FloatVal(v)
  {
    match t
    case String => Some(StringVal(v))
    case Number => (match ParseI32(v) case Some(n) => Some(NumberVal(n)) case None => None)
    case Float => if IsF32Literal(v) then Some(FloatVal(v)) else None
  }

  /** A line `init` writes to standard error. */
  datatype Diagnostic = UnknownOption(isLong: bool, name: string) | StrayValue(text: string)

  /** The text of a diagnostic line. */
  function Message(d: Diagnostic): string
  {
    match d
    case UnknownOption(isLong, name) => "[BAD] O(" + (if isLong then "L" else "S") + "): " + name
    case StrayValue(text) => "[BAD?] V: " + text
  }

  /** Distinct diagnostics are written as distinct lines: the line tells which token was rejected and why. */
  lemma MessageInjective(d1: Diagnostic, d2: Diagnostic)
    requires Message(d1) == Message(d2)
    ensures d1 == d2
  {
    var m := Message(d1);
    assert Message(d2)[4] == m[4];
    if d1.UnknownOption? && d2.UnknownOption? {
      assert Message(d2)[8] == m[8];
      assert d1.name == m[12..] == d2.name;
    } else if d1.StrayValue? && d2.StrayValue? {
      assert d1.text == m[10..] == d2.text;
    }
  }

  /** What one step of the parse loop does. */
  datatype Event =
    | Store(key: string, arg: CmdArgument)  // insert into the argument store, replacing any entry
    | Report(diag: Diagnostic)              // write a diagnostic; the store is unchanged
    | Abort(token: string)                  // `unwrap` panics on this value token

  /**
   * One turn of the parse loop on the tokens `toks`: the event it produces and how many tokens it
   * consumes (the flag, and also the value token when its option takes a value and one follows).
   */
  function Step(opts: seq<CmdLineOption>, toks: seq<string>): (r: (Event, nat))
    requires toks != []
    ensures 1 <= r.1 <= |toks|
    ensures r.1 == 2 <==> (Classify(toks[0]).Flag? && |toks| >= 2
                           && FindOption(opts, Classify(toks[0]).name, Classify(toks[0]).isLong).Some?
                           && FindOption(opts, Classify(toks[0]).name, Classify(toks[0]).isLong).value.valueType != NoValue)
  {
    match Classify(toks[0])
    case Bare(text) => (Report(StrayValue(text)), 1)
    case Flag(isLong, name) =>
      match FindOption(opts, name, isLong)
      case None => (Report(UnknownOption(isLong, name)), 1)
      case Some(o) =>
        if o.valueType == NoValue || |toks| == 1 then (Store(o.shortform, CmdArgument(o.shortform, NoVal)), 1)
        else
          match Coerce(o.valueType, toks[1])
          case None => (Abort(toks[1]), 2)
          case Some(v) => (Store(o.shortform, CmdArgument(o.shortform, v)), 2)
  }

  /** The events of parsing the tokens `toks` (the arguments after the executable path); an abort ends them. */
  function Scan(opts: seq<CmdLineOption>, toks: seq<string>): seq<Event>
    decreases |toks|
  {
    if toks == [] then []
    else
      var (e, n) := Step(opts, toks);
      if e.Abort? then [e] else [e] + Scan(opts, toks[n..])
  }

  /** The store after one event. */
  function Effect(m: map<string, CmdArgument>, e: Event): map<string, CmdArgument>
  {
    if e.Store? then m[e.key := e.arg] else m
  }

  /** The store after the events `evs`, in order. */
  function Apply(m: map<string, CmdArgument>, evs: seq<Event>): map<string, CmdArgument>
    decreases |evs|
  {
    if evs == [] then m else Apply(Effect(m, evs[0]), evs[1..])
  }

  /** The diagnostics among `evs`, in order. */
  function Reports(evs: seq<Event>): seq<Diagnostic>
    decreases |evs|
  {
    if evs == [] then [] else (if evs[0].Report? then [evs[0].diag] else []) + Reports(evs[1..])
  }

  /**
   * The parse loop's invariant: the store `m`, the log written so far and the tokens `toks` still
   * to read lead to the same store, log and outcome as parsing all tokens `all` from `start`.
   */
  ghost predicate Progress(opts: seq<CmdLineOption>, m: map<string, CmdArgument>, log: seq<Diagnostic>,
                           toks: seq<string>, start: map<string, CmdArgument>, all: seq<string>)
  {
    && Apply(m, Scan(opts, toks)) == Apply(start, Scan(opts, all))
    && log + Reports(Scan(opts, toks)) == Reports(Scan(opts, all))
    && AbortToken(Scan(opts, toks)) == AbortToken(Scan(opts, all))
  }

  /** A turn that stores or reports keeps the loop's invariant, with the rest of the tokens to read. */
  lemma Advance(opts: seq<CmdLineOption>, m: map<string, CmdArgument>, log: seq<Diagnostic>,
                toks: seq<string>, start: map<string, CmdArgument>, all: seq<string>, e: Event, n: nat)
    requires toks != [] && Step(opts, toks) == (e, n) && !e.Abort?
    requires Progress(opts, m, log, toks, start, all)
    ensures e.Store? ==> Progress(opts, m[e.key := e.arg], log, toks[n..], start, all)
    ensures e.Report? ==> Progress(opts, m, log + [e.diag], toks[n..], start, all)
  {
    var rest := Scan(opts, toks[n..]);
    assert Scan(opts, toks) == [e] + rest;
    assert ([e] + rest)[0] == e && ([e] + rest)[1..] == rest;
    if e.Report? {
      assert log + ([e.diag] + Reports(rest)) == (log + [e.diag]) + Reports(rest);
    } else {
      assert [] + Reports(rest) == Reports(rest);
    }
  }

  /** A turn that aborts ends the parse: the store and the log are final, and the outcome is the abort. */
  lemma Finish(opts: seq<CmdLineOption>, m: map<string, CmdArgument>, log: seq<Diagnostic>,
               toks: seq<string>, start: map<string, CmdArgument>, all: seq<string>, v: string, n: nat)
    requires toks != [] && Step(opts, toks) == (Abort(v), n)
    requires Progress(opts, m, log, toks, start, all)
    ensures Apply(start, Scan(opts, all)) == m
    ensures Reports(Scan(opts, all)) == log
    ensures AbortToken(Scan(opts, all)) == Some(v)
  {
    assert Scan(opts, toks) == [Abort(v)];
    assert [Abort(v)][1..] == [];
    assert Reports([Abort(v)]) == [] && Apply(m, [Abort(v)]) == m;
    assert log + [] == log;
  }

  /** The value token of the first abort among `evs`, if any. */
  function AbortToken(evs: seq<Event>): Option<string>
    decreases |evs|
  {
    if evs == [] then None else if evs[0].Abort? then Some(evs[0].token) else AbortToken(evs[1..])
  }

  /** The store as `init` leaves it: `m` with the executable path, then the events of `raw[1..]`. */
  function InitStore(opts: seq<CmdLineOption>, m: map<string, CmdArgument>, raw: seq<string>): map<string, CmdArgument>
    requires |raw| >= 1
  {
    Apply(m[ExecKey := ExecArgument(raw[0])], Scan(opts, raw[1..]))
  }

  /** The argument of the last store event for `k` in `evs`, if any (a reference for `Apply`). */
  function LastStored(evs: seq<Event>, k: string): Option<CmdArgument>
    decreases |evs|
  {
    if evs == [] then None
    else
      var e := evs[|evs| - 1];
      if e.Store? && e.key == k then Some(e.arg) else LastStored(evs[..|evs| - 1], k)
  }

  /** An argument stored under `k` belongs to a registered option with short form `k` and fits its type. */
  predicate StoredFor(opts: seq<CmdLineOption>, k: string, a: CmdArgument)
  {
    a.option == k && exists i :: 0 <= i < |opts| && opts[i].shortform == k && Conforms(a.value, opts[i].valueType)
  }

  lemma {:induction false} ApplySnoc(m: map<string, CmdArgument>, evs: seq<Event>, e: Event)
    ensures Apply(m, evs + [e]) == Effect(Apply(m, evs), e)
    decreases |evs|
  {
    if evs == [] {
      assert [] + [e] == [e];
    } else {
      assert (evs + [e])[1..] == evs[1..] + [e];
      ApplySnoc(Effect(m, evs[0]), evs[1..], e);
    }
  }

  /**
   * Applying events in order leaves under each key the argument of the last store event for it
   * (a later occurrence overwrites an earlier one); a key no event stores keeps its entry in `m`.
   */
  lemma {:induction false} ApplyIsLastStore(m: map<string, CmdArgument>, evs: seq<Event>, k: string)
    ensures k in Apply(m, evs) <==> k in m || LastStored(evs, k).Some?
    ensures k in Apply(m, evs) ==>
      Apply(m, evs)[k] == (match LastStored(evs, k) case Some(a) => a case None => m[k])
    decreases |evs|
  {
    if evs != [] {
      var init, e := evs[..|evs| - 1], evs[|evs| - 1];
      assert evs == init + [e];
      ApplySnoc(m, init, e);
      ApplyIsLastStore(m, init, k);
    }
  }

  /** A step stores only a registered option's argument, keyed by its short form and of its type. */
  lemma StepStoresRegistered(opts: seq<CmdLineOption>, toks: seq<string>)
    requires toks != []
    ensures Step(opts, toks).0.Store? ==> StoredFor(opts, Step(opts, toks).0.key, Step(opts, toks).0.arg)
  {
    match Classify(toks[0])
    case Bare(_) =>
    case Flag(isLong, name) =>
      match FindOption(opts, name, isLong)
      case None =>
      case Some(o) =>
        var i :| 0 <= i < |opts| && opts[i] == o && Matches(opts[i], name, isLong);
  }

  /** Every store event the parse produces is for a registered short form, with a value of its type. */
  lemma {:induction false} ScanStoresRegistered(opts: seq<CmdLineOption>, toks: seq<string>)
    ensures forall j :: 0 <= j < |Scan(opts, toks)| && Scan(opts, toks)[j].Store? ==>
      StoredFor(opts, Scan(opts, toks)[j].key, Scan(opts, toks)[j].arg)
    decreases |toks|
  {
    if toks != [] {
      var (e, n) := Step(opts, toks);
      StepStoresRegistered(opts, toks);
      ScanStoresRegistered(opts, toks[n..]);
    }
  }

  /** Last-stored lookup finds only events that occur in the sequence. */
  lemma {:induction false} LastStoredOccurs(evs: seq<Event>, k: string)
    requires LastStored(evs, k).Some?
    ensures exists j :: 0 <= j < |evs| && evs[j] == Store(k, LastStored(evs, k).value)
    decreases |evs|
  {
    var e := evs[|evs| - 1];
    if !(e.Store? && e.key == k) {
      LastStoredOccurs(evs[..|evs| - 1], k);
      var j :| 0 <= j < |evs| - 1 && evs[..|evs| - 1][j] == Store(k, LastStored(evs, k).value);
      assert evs[j] == evs[..|evs| - 1][j];
    }
  }

  /**
   * After `init`, the store holds the executable path under `ExecKey` (unless an option has that
   * short form and overwrote it), and every entry is either as it was before the parse or an
   * argument of a registered option keyed by its short form with a value of its declared type.
   */
  lemma InitStoreEntries(opts: seq<CmdLineOption>, m: map<string, CmdArgument>, raw: seq<string>)
    requires |raw| >= 1
    ensures ExecKey in InitStore(opts, m, raw)
    ensures (forall i :: 0 <= i < |opts| ==> opts[i].shortform != ExecKey) ==>
      InitStore(opts, m, raw)[ExecKey] == ExecArgument(raw[0])
    ensures forall k :: k in InitStore(opts, m, raw) ==>
      (k in m && k != ExecKey && InitStore(opts, m, raw)[k] == m[k]) || k == ExecKey || StoredFor(opts, k, InitStore(opts, m, raw)[k])
  {
    var start := m[ExecKey := ExecArgument(raw[0])];
    var evs := Scan(opts, raw[1..]);
    var r := InitStore(opts, m, raw);
    ScanStoresRegistered(opts, raw[1..]);
    forall k | k in r || k == ExecKey
      ensures k in r
      ensures k in r && k != ExecKey && LastStored(evs, k).None? ==> k in m && r[k] == m[k]
      ensures k in r && LastStored(evs, k).Some? ==> StoredFor(opts, k, r[k])
    {
      ApplyIsLastStore(start, evs, k);
      if LastStored(evs, k).Some? {
        LastStoredOccurs(evs, k);
      }
    }
    if forall i :: 0 <= i < |opts| ==> opts[i].shortform != ExecKey {
      ApplyIsLastStore(start, evs, ExecKey);
      if LastStored(evs, ExecKey).Some? {
        LastStoredOccurs(evs, ExecKey);
      }
    }
  }

  /**
   * A bare token, or a flag that names no registered option, only produces its diagnostic: the
   * store and the outcome are those of parsing the tokens after it.
   */
  lemma IgnoredToken(opts: seq<CmdLineOption>, t: string, rest: seq<string>, m: map<string, CmdArgument>)
    requires Classify(t).Bare? || FindOption(opts, Classify(t).name, Classify(t).isLong).None?
    ensures Apply(m, Scan(opts, [t] + rest)) == Apply(m, Scan(opts, rest))
    ensures AbortToken(Scan(opts, [t] + rest)) == AbortToken(Scan(opts, rest))
    ensures Reports(Scan(opts, [t] + rest)) ==
      [if Classify(t).Flag? then UnknownOption(Classify(t).isLong, Classify(t).name) else StrayValue(t)] + Reports(Scan(opts, rest))
  {
    assert ([t] + rest)[1..] == rest;
  }

  /** A flag of a `NoValue` option stores `NoVal` under its short form and consumes only itself. */
  lemma NoValueFlag(opts: seq<CmdLineOption>, t: string, rest: seq<string>, o: CmdLineOption)
    requires Classify(t).Flag? && FindOption(opts, Classify(t).name, Classify(t).isLong) == Some(o)
    requires o.valueType == NoValue
    ensures Scan(opts, [t] + rest) == [Store(o.shortform, CmdArgument(o.shortform, NoVal))] + Scan(opts, rest)
  {
    assert ([t] + rest)[1..] == rest;
  }

  /**
   * A flag of a value-typed option consumes the next token as its value whatever that token looks
   * like (even `-x`), and either stores the converted value under its short form or aborts.
   */
  lemma ValueFlagTakesNext(opts: seq<CmdLineOption>, t: string, v: string, rest: seq<string>, o: CmdLineOption)
    requires Classify(t).Flag? && FindOption(opts, Classify(t).name, Classify(t).isLong) == Some(o)
    requires o.valueType != NoValue
    ensures Coerce(o.valueType, v).Some? ==>
      Scan(opts, [t, v] + rest) == [Store(o.shortform, CmdArgument(o.shortform, Coerce(o.valueType, v).value))] + Scan(opts, rest)
    ensures Coerce(o.valueType, v).None? ==> Scan(opts, [t, v] + rest) == [Abort(v)]
  {
    assert ([t, v] + rest)[2..] == rest;
  }

  /** A flag of a value-typed option that ends the argument list is stored with `NoVal`. */
  lemma MissingValueIsNoVal(opts: seq<CmdLineOption>, t: string, o: CmdLineOption)
    requires Classify(t).Flag? && FindOption(opts, Classify(t).name, Classify(t).isLong) == Some(o)
    requires o.valueType != NoValue
    ensures Scan(opts, [t]) == [Store(o.shortform, CmdArgument(o.shortform, NoVal))]
  {
  }

  /** A `Number` option followed by a token that is not an `i32` aborts the parse at that token. */
  lemma BadNumberAborts(opts: seq<CmdLineOption>, t: string, v: string, rest: seq<string>, o: CmdLineOption)
    requires Classify(t).Flag? && FindOption(opts, Classify(t).name, Classify(t).isLong) == Some(o)
    requires o.valueType == Number && ParseI32(v).None?
    ensures AbortToken(Scan(opts, [t, v] + rest)) == Some(v)
    ensures forall m :: Apply(m, Scan(opts, [t, v] + rest)) == m
  {
    ValueFlagTakesNext(opts, t, v, rest, o);
  }
}
