# commander, modelled in Dafny

A model of the `commander` crate's command-line parser (`src/lib.rs`) and proofs about it. The
crate has two parts:

- the `Commander` option registry: `add_option`, `option_count`, `get_supported_option` and `help`.
  The registry is a vector of options that is re-sorted by short form after every push.
- the argument parser `init`. It stores the executable path under `"__exec__"`, classifies every
  further token as a long flag, a short flag or a stray value, and looks flags up in the registry.
  A value-typed option takes the next token as its value. The result is stored in a map keyed by
  the option's short form.

Modules, one concept each:

- `Wrappers` (`wrappers.dfy`): `Option`.
- `Strings` (`strings.dfy`): Rust's `str::cmp` as `Cmp`, with lemmas that it is a total order.
  Also `StartsWith`, and line splitting for reading the help text back.
- `Numbers` (`numbers.dfy`): `i32` as a newtype and `i32::from_str` as `ParseI32`. The grammar
  `f32::from_str` accepts is `IsF32Literal`.
- `Types` (`types.dfy`): the crate's four types, and which argument values fit which option type.
- `Registry` (`registry.dfy`): the first-match lookup, sortedness and stability by short form,
  and the insertion sort that models `sort_by`. `Inserted` describes where a pushed option ends up.
- `Help` (`help.dfy`): the help text as a function of the registry.
- `Parser` (`parser.dfy`): `init`'s loop as pure functions. `Scan` turns the tokens into events:
  store an argument, report a diagnostic, or abort in a panic. `Apply` folds the events into the
  argument map.
- `CommanderLib` (`commander.dfy`): the `Commander` class. Its methods update `options` and
  `args` in place and are proved against the functions above. `Find` is `get_supported_option`:
  it calls `Registry.FindOption` on the current registry, and `Init` uses it for every flag.
- `Examples` (`examples.dfy`): the crate's unit tests and the demo binary's registry, stated as
  lemmas about the model.

The class keeps a ghost history `added` of every option passed to `AddOption`. Its invariant
`Valid` says three things about `options`:

- it is sorted by short form;
- it is a permutation of `added`;
- for every short form, it holds the options with that short form in the order they were added.

A sorted arrangement with those properties is unique (`Registry.SortedArrangementUnique`). So
after each call, `options` is exactly `Inserted(old(options), o)`: the new option goes after
every option whose short form is no greater than its own.

`init` is specified against the event list `Scan(options, raw[1..])`:

- the new argument map is `InitStore`: the old map, plus the executable path, plus the stored
  events applied in order;
- the diagnostics are the reported events;
- the run panics exactly when the events contain an abort.

The events stop at the first abort. Everything stored before it stays in the map, as it would
in the Rust process when `unwrap` panics.

## Model

| member | source | states |
|---|---|---|
| CommanderLib.Commander.constructor | src/lib.rs:48-53 | a new `Commander` has no options, no arguments and an empty history, and satisfies the registry invariant |
| CommanderLib.Commander.AddOption | src/lib.rs:131-143 | the history grows by exactly the new option; `options` stays sorted by short form, a permutation of the history and stable per short form; the new `options` is the old one with the option inserted after every option whose short form is no greater |
| CommanderLib.Commander.OptionCount | src/lib.rs:147-149 | the count equals the number of `AddOption` calls so far, duplicates included |
| CommanderLib.Commander.Help | src/lib.rs:159-175 | the string built by the `push_str` loop is the help text of the current registry |
| CommanderLib.Commander.Init | src/lib.rs:68-126 | the new argument map is the old map with the executable path stored, then every stored event of the scan applied in order; the log is the scan's diagnostics; the outcome is an abort at exactly the first value token that fails to convert |
| Registry.FindOption | src/lib.rs:180-186 | the lookup returns nothing exactly when no option matches the token in the requested form; otherwise it returns a matching option with no match before it |
| Registry.FindFirstMatch | src/lib.rs:180-186 | a matching option with no earlier match is the one the lookup returns |
| Registry.SortByShortform | src/lib.rs:139-140 | the sort's result is sorted by short form, a permutation of its input, and keeps the input order among options with equal short forms |
| Registry.SortedPairwise | src/lib.rs:140 | in a sorted registry every option sorts no later than every option after it |
| Registry.InsertedIsStable | src/lib.rs:139-140 | inserting into a sorted registry gives a sorted registry that is a permutation of the pushed vector and keeps its per-short-form order |
| Registry.SortedArrangementUnique | src/lib.rs:139-140 | two sorted arrangements of the same options that agree on the order within each short form are equal |
| Registry.SortedPushIsInserted | src/lib.rs:139-140 | any stable sort of a sorted registry with one option pushed equals the insertion of that option |
| Strings.CmpEqualIff | src/lib.rs:140 | the string comparison reports `Equal` exactly for equal strings |
| Strings.CmpReverse | src/lib.rs:140 | swapping the operands of the comparison reverses its result |
| Strings.CmpTransitive | src/lib.rs:140 | "sorts no later than" is transitive |
| Help.HelpTextHeader | src/lib.rs:160 | the help text starts with `Options available:` and a line feed |
| Help.HelpLineSingle | src/lib.rs:163-171 | an option line has no line feed of its own when the option's fields have none |
| Help.HelpTextLines | src/lib.rs:160-172 | when no option's short form, long form or description contains a line feed, the help text read back as lines is the header and then exactly one line per option in registry order, each of the form long form, short form, type tag, description |
| Parser.Classify | src/lib.rs:78-88 | a token is a flag exactly when it starts with `-`, and a long flag exactly when it starts with `--`; the prefix plus the flag name gives back the token; any other token stays as it is |
| Parser.ShortFlag | src/lib.rs:78-88 | `-name` is read as the short flag `name`, unless `name` itself starts with `-` |
| Parser.LongFlag | src/lib.rs:78-88 | `--name` is read as the long flag `name` |
| Parser.Step | src/lib.rs:77-109 | one turn of the loop consumes at least one token and no more than remain; it consumes two exactly when the token is a flag of a registered value-typed option and another token follows |
| Parser.StepStoresRegistered | src/lib.rs:91-114 | a turn stores only the argument of a registered option, keyed by its short form, with a value that fits its type |
| Parser.Advance | src/lib.rs:77-123 | a turn that stores or reports keeps the loop's invariant: the store and log so far plus the parse of the remaining tokens equal the parse of the whole list |
| Parser.Finish | src/lib.rs:104-105 | a turn that aborts leaves the store and the log as the whole parse ends them, with the abort as the outcome |
| Parser.Coerce | src/lib.rs:102-107 | a converted value fits its option's type; a `String` value is the token unchanged; a `Number` value exists exactly when the token parses as an `i32`, and is that `i32`; a `Float` value exists exactly when the token is an `f32` literal, and is that literal |
| Parser.MessageInjective | src/lib.rs:118-121 | distinct diagnostics produce distinct error lines |
| Parser.ApplySnoc | src/lib.rs:111-114 | applying one more event changes the map by that event alone |
| Parser.ApplyIsLastStore | src/lib.rs:111-114 | after the events, a key is present exactly when it was before or some event stored it; when stored, it holds the value of its last store |
| Parser.ScanStoresRegistered | src/lib.rs:94-114 | every stored event is keyed by the short form of a registered option and carries a value that fits that option's type |
| Parser.InitStoreEntries | src/lib.rs:73-114 | after `init` the executable key is present, and holds the executable path unless an option's short form is that key; every other entry was already there or is a registered option's argument, keyed by its short form, with a value that fits its type (its own variant, or `NoValue` when a value-typed flag ends the list) |
| Parser.IgnoredToken | src/lib.rs:118-122 | a stray value or an unknown flag only adds its diagnostic: the map and the outcome are those of the remaining tokens |
| Parser.NoValueFlag | src/lib.rs:94-100 | a flag of a `NoValue` option stores `NoValue` under its short form and takes no further token |
| Parser.ValueFlagTakesNext | src/lib.rs:99-109 | a flag of a value-typed option takes the next token whatever it looks like; it stores the converted value, or aborts at that token |
| Parser.MissingValueIsNoVal | src/lib.rs:100-101 | a value-typed flag that ends the list is stored with `NoValue` |
| Parser.BadNumberAborts | src/lib.rs:104 | a `Number` flag followed by a token that is not an `i32` aborts at that token, and leaves any map unchanged |
| Parser.LastStoredOccurs | src/lib.rs:111-114 | the last stored value for a key comes from a store event for that key |
| Numbers.ParseI32 | src/lib.rs:104 | a parse succeeds exactly on an optional sign followed by one or more digits whose value is in the `i32` range, and yields that value |
| Numbers.ParseDecimal | src/lib.rs:104 | every `i32`, written in decimal, parses back to itself |
| Numbers.IntegerIsF32Literal | src/lib.rs:105 | every token a `Number` option accepts is also accepted by a `Float` option |
| Examples.AddTwoOptions | src/lib.rs:201-207 | registering `v` then `h` gives a count of 2 with `h` first |
| Examples.BuildDemo | src/main.rs:7-11 | the demo binary's five `add_option` calls leave a count of 5 and the registry `Demo`, sorted by short form: `b`, `c`, `h`, `if`, `v` |
| Examples.NumberExample | src/lib.rs:99-114 | `exec -c 10` stores the number 10 under `c` next to the executable path |
| Examples.FloatExample | src/lib.rs:99-114 | `exec --balance 0.10` stores the literal `0.10` under the short form `b` |
| Examples.StringExample | src/lib.rs:99-114 | `exec -f textfile.txt` stores the text verbatim under `f` |
| Examples.ExecOnlyExample | src/lib.rs:73 | the executable path alone leaves one entry |
| Examples.UnknownFlagExample | src/lib.rs:118 | `-z` with no matching option is reported as `[BAD] O(S): z` and stores nothing |
| Examples.LastOccurrenceExample | src/lib.rs:111-114 | with `-c 1 -c 2` the second occurrence's value is the one stored |
| Examples.BadNumberExample | src/lib.rs:104 | `-c ten` aborts at `ten`, leaving only the executable path stored |

## Left out

- Reading the process arguments (`env::args()`): `Init` takes the argument list as a parameter.
- Writing to standard error: the diagnostics of `init` are returned as a `Diagnostic` log, and
  `Parser.Message` gives each one's text. The final `INIT COMPLETE` dump of the map is not modelled.
- An empty argument list: `init` panics at `args[0]` (src/lib.rs:73) when the process has no
  arguments at all. `Init` requires at least the executable path, so that panic is not modelled.
- A panic in `unwrap`: `Init` returns `Aborted(token)` instead. The arguments stored before the
  panic stay in `args`, as they do in the Rust object.
- Floating point: a `Float` argument keeps the validated literal text (`FloatVal(literal)`), not
  an `f32`. Rounding and the value of the literal are not modelled.
  `IsF32Literal` accepts the grammar of Rust's `f32::from_str` as documented from Rust 1.55 on:
  an optional sign; then `inf`, `infinity` or `nan` in any ASCII case, or digits with an
  optional point and an optional exponent. The crate pins no toolchain; older releases accept
  fewer spellings of the special values, and that grammar is not modelled.
- The chained `&mut Self` return of `add_option`: callers chain plain method calls instead.
- `Vec::sort_by` is the Rust library's merge sort. It is modelled by an insertion sort with the
  same contract (sorted, a permutation, stable). Since that contract determines the result,
  `AddOption`'s result is the same as Rust's.
- Rust compares `&str` by its UTF-8 bytes. `Strings.Cmp` compares characters by code point,
  which gives the same order.
- Typed getters, `arg_count` and `arguments`: `src/main.rs` calls `arg_count` and `arguments`,
  but `src/lib.rs` does not define them. `src/main.rs` is not part of this model beyond the
  registry it builds, which `Examples.BuildDemo` rebuilds.
- The ignored `test_help` (src/lib.rs:209-218) expects a text with the long and short forms
  swapped and no type tag. The model follows `help` itself, including its spelling
  `[no paramater]`.
- Lifetimes (`'a`): options hold plain strings.
