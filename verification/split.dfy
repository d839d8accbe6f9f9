/**
  The declarative reading of both hand-written line parsers: a line is cut at
  its first space character; what precedes it is the head, everything after it
  (later spaces included) is the tail. A line without a space is all head.
 */
module Split {

  /** Position of the first ' ' in `s`, or `|s|` when there is none. */
  function SpaceIndex(s: string): (k: nat)
    ensures k <= |s|
    ensures forall i :: 0 <= i < k ==> s[i] != ' '
    ensures k < |s| ==> s[k] == ' '
  {
    if |s| == 0 then 0
    else if s[0] == ' ' then 0
    else 1 + SpaceIndex(s[1..])
  }

  /** The characters before the first space (the whole line if there is none). */
  function Head(s: string): string
  {
    s[..SpaceIndex(s)]
  }

  /** The characters after the first space, verbatim (empty if there is none). */
  function Tail(s: string): string
  {
    var k := SpaceIndex(s);
    if k < |s| then s[k + 1..] else []
  }

  /** The head never holds a space, and head and tail put back together give the line. */
  lemma SplitReassembles(s: string)
    ensures ' ' !in Head(s)
    ensures ' ' in s ==> s == Head(s) + " " + Tail(s)
    ensures ' ' !in s ==> Head(s) == s && Tail(s) == []
  {
    var k := SpaceIndex(s);
    if ' ' in s {
      assert k < |s|;
      assert s == s[..k] + [s[k]] + s[k + 1..];
    } else {
      assert k == |s|;
    }
  }

  /** Splitting a joined line recovers its parts, whatever spaces the tail holds. */
  lemma SplitOfJoin(d: string, p: string)
    requires ' ' !in d
    ensures SpaceIndex(d + " " + p) == |d|
    ensures Head(d + " " + p) == d
    ensures Tail(d + " " + p) == p
  {
    var s := d + " " + p;
    var k := SpaceIndex(s);
    assert s[|d|] == ' ';
    assert s[..|d|] == d;
    assert s[|d| + 1..] == p;
  }
}
