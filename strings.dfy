/**
 * The few operations on Rust string slices (`str`) that the command-line parser relies on:
 * ordering (`Ord::cmp`, used by the sort of the option registry), `starts_with`, and the
 * line structure of the generated help text.
 *
 * Rust strings are UTF-8; comparing them byte by byte orders them exactly as comparing their
 * Unicode scalar values one by one, which is what `Cmp` does on Dafny strings.
 */
module Strings {

  /** The result of a three-way comparison (Rust's `std::cmp::Ordering`). */
  datatype Ordering = Less | Equal | Greater
  {
    /** The ordering seen from the other side. */
    function Reverse(): Ordering
    {
      match this
      case Less => Greater
      case Equal => Equal
      case Greater => Less
    }
  }

  /** Lexicographic comparison, a proper prefix coming first. */
  function Cmp(a: string, b: string): Ordering
    decreases |a|
  {
    if a == [] then (if b == [] then Equal else Less)
    else if b == [] then Greater
    else if a[0] < b[0] then Less
    else if b[0] < a[0] then Greater
    else Cmp(a[1..], b[1..])
  }

  /** `a` sorts no later than `b`. */
  predicate NotAfter(a: string, b: string)
  {
    Cmp(a, b) != Greater
  }

  /** Two strings compare as equal exactly when they are the same string. */
  lemma {:induction false} CmpEqualIff(a: string, b: string)
    ensures Cmp(a, b) == Equal <==> a == b
  {
    if a != [] && b != [] && a[0] == b[0] {
      CmpEqualIff(a[1..], b[1..]);
      assert a == [a[0]] + a[1..];
      assert b == [b[0]] + b[1..];
    }
  }

  /** Comparing the other way round gives the reversed ordering (antisymmetry). */
  lemma {:induction false} CmpReverse(a: string, b: string)
    ensures Cmp(b, a) == Cmp(a, b).Reverse()
  {
    if a != [] && b != [] && a[0] == b[0] {
      CmpReverse(a[1..], b[1..]);
    }
  }

  /** `NotAfter` is transitive, so `Cmp` is a total order, as `sort_by` needs. */
  lemma {:induction false} CmpTransitive(a: string, b: string, c: string)
    requires NotAfter(a, b) && NotAfter(b, c)
    ensures NotAfter(a, c)
  {
    if a != [] && b != [] && c != [] && a[0] == b[0] && b[0] == c[0] {
      CmpTransitive(a[1..], b[1..], c[1..]);
    }
  }

  /** Rust's `str::starts_with` for a string pattern. */
  predicate StartsWith(s: string, prefix: string)
  {
    |prefix| <= |s| && s[..|prefix|] == prefix
  }

  /** The position of the first `c` in `s`, or `|s|` when `s` has none. */
  function IndexOf(s: string, c: char): (i: nat)
    ensures i <= |s|
    ensures i < |s| ==> s[i] == c
    ensures forall j :: 0 <= j < i ==> s[j] != c
    decreases |s|
  {
    if s == [] then 0
    else if s[0] == c then 0
    else 1 + IndexOf(s[1..], c)
  }

  /** The lines `ls`, each followed by a line feed. */
  function Terminated(ls: seq<string>): string
    decreases |ls|
  {
    if ls == [] then "" else ls[0] + "\n" + Terminated(ls[1..])
  }

  /** The lines of `s`: the pieces between line feeds; a final line feed ends the last line. */
  function Lines(s: string): seq<string>
    decreases |s|
  {
    if s == [] then []
    else
      var i := IndexOf(s, '\n');
      if i == |s| then [s] else [s[..i]] + Lines(s[i + 1..])
  }

  /** Appending one terminated line to terminated lines. */
  lemma {:induction false} TerminatedSnoc(ls: seq<string>, l: string)
    ensures Terminated(ls + [l]) == Terminated(ls) + l + "\n"
    decreases |ls|
  {
    if ls != [] {
      assert (ls + [l])[1..] == ls[1..] + [l];
      TerminatedSnoc(ls[1..], l);
    }
  }

  /** Splitting terminated lines that hold no line feed gives the lines back. */
  lemma {:induction false} LinesOfTerminated(ls: seq<string>)
    requires forall k :: 0 <= k < |ls| ==> '\n' !in ls[k]
    ensures Lines(Terminated(ls)) == ls
    decreases |ls|
  {
    if ls != [] {
      var s := Terminated(ls);
      var rest := Terminated(ls[1..]);
      assert s == ls[0] + "\n" + rest;
      var i := IndexOf(s, '\n');
      assert s[|ls[0]|] == '\n';
      assert forall j :: 0 <= j < |ls[0]| ==> s[j] == ls[0][j];
      assert i == |ls[0]|;
      assert s[..i] == ls[0];
      assert s[i + 1..] == rest;
      LinesOfTerminated(ls[1..]);
    }
  }
}
