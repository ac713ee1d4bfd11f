/** The help text `Commander::help` renders from the option registry. */
module Help {
  import opened Strings
  import opened Types

  /** The header line that opens the help text. */
  const Header: string := "Options available:"

  /** The bracketed type tag of an option (the source spells the last one "paramater"). */
  function Tag(t: CmdOptionValueType): string
  {
    match t
    case String => "[string]"
    case Float => "[Float]"
    case Number => "[Number]"
    case NoValue => "[no paramater]"
  }

  /** The line for one option, without its line feed. */
  function HelpLine(o: CmdLineOption): string
  {
    "\t--" + o.longform + ", -" + o.shortform + "\t\t" + Tag(o.valueType) + "\t\t" + o.description
  }

  /** Appending the pieces of an option's line one after another appends the line. */
  lemma HelpLinePieces(out: string, o: CmdLineOption)
    ensures out + "\t--" + o.longform + ", -" + o.shortform + "\t\t" + Tag(o.valueType) + "\t\t" + o.description + "\n"
         == out + HelpLine(o) + "\n"
  {
    var p1, p2, p3, p4 := "\t--" + o.longform, ", -" + o.shortform, "\t\t" + Tag(o.valueType), "\t\t" + o.description;
    assert HelpLine(o) == p1 + p2 + p3 + p4;
    assert out + "\t--" + o.longform == out + p1;
    assert out + p1 + ", -" + o.shortform == out + (p1 + p2);
    assert out + (p1 + p2) + "\t\t" + Tag(o.valueType) == out + (p1 + p2 + p3);
    assert out + (p1 + p2 + p3) + "\t\t" + o.description == out + (p1 + p2 + p3 + p4);
  }

  /** One line per option, in registry order. */
  function HelpLines(opts: seq<CmdLineOption>): (ls: seq<string>)
    ensures |ls| == |opts|
  {
    seq(|opts|, i requires 0 <= i < |opts| => HelpLine(opts[i]))
  }

  /** Text built from the header and the lines of the first `i` options grows by the next option's line. */
  lemma HelpTextStep(opts: seq<CmdLineOption>, i: nat, prev: string)
    requires i < |opts| && prev == Terminated([Header] + HelpLines(opts[..i]))
    ensures prev + HelpLine(opts[i]) + "\n" == Terminated([Header] + HelpLines(opts[..i + 1]))
  {
    assert [Header] + HelpLines(opts[..i + 1]) == [Header] + HelpLines(opts[..i]) + [HelpLine(opts[i])];
    TerminatedSnoc([Header] + HelpLines(opts[..i]), HelpLine(opts[i]));
  }

  /** The whole help text: the header, then one line per option, each ending in a line feed. */
  function HelpText(opts: seq<CmdLineOption>): string
  {
    Terminated([Header] + HelpLines(opts))
  }

  /** No text field of `o` holds a line feed. */
  predicate SingleLine(o: CmdLineOption)
  {
    '\n' !in o.shortform && '\n' !in o.longform && '\n' !in o.description
  }

  /** The line of an option whose fields hold no line feed holds none either. */
  lemma HelpLineSingle(o: CmdLineOption)
    requires SingleLine(o)
    ensures '\n' !in HelpLine(o)
  {
    var t := Tag(o.valueType);
    assert '\n' !in t;
    assert HelpLine(o) == "\t--" + o.longform + ", -" + o.shortform + "\t\t" + t + "\t\t" + o.description;
  }

  /** The help text opens with the header line. */
  lemma HelpTextHeader(opts: seq<CmdLineOption>)
    ensures |HelpText(opts)| > |Header| && HelpText(opts)[..|Header| + 1] == Header + "\n"
  {
    var ls := [Header] + HelpLines(opts);
    assert HelpText(opts) == Header + "\n" + Terminated(ls[1..]);
  }

  /**
   * When no option's text holds a line feed, the help text consists of exactly the header line
   * followed by one line per option, in registry order.
   */
  lemma HelpTextLines(opts: seq<CmdLineOption>)
    requires forall i :: 0 <= i < |opts| ==> SingleLine(opts[i])
    ensures Lines(HelpText(opts)) == [Header] + HelpLines(opts)
    ensures |Lines(HelpText(opts))| == |opts| + 1
  {
    var ls := [Header] + HelpLines(opts);
    forall k | 0 <= k < |ls|
      ensures '\n' !in ls[k]
    {
      if k > 0 {
        assert ls[k] == HelpLine(opts[k - 1]);
        HelpLineSingle(opts[k - 1]);
      }
    }
    LinesOfTerminated(ls);
  }
}
