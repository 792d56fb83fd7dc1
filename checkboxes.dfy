/**
 * Checkbox state kept as a JavaScript array of booleans and updated by
 * copy-then-assign (`const next = [...prev]; next[i] = v`). Assigning past the
 * end leaves holes. The spread copy reads every index, so a hole in the old
 * array becomes an element that holds `undefined` in the new one. A hole and
 * `undefined` both show an unchecked box, but `every` skips only the hole.
 */
module Checkboxes {

  /**
   * One element of the array: a hole that was never written, an element that
   * exists but holds `undefined`, or a boolean.
   */
  datatype Box = Hole | Undef | Val(b: bool)

  type Boxes = seq<Box>

  /** `Array(n).fill(false)`. */
  function Unchecked(n: nat): (r: Boxes)
    ensures |r| == n && NoHoles(r)
    ensures forall i: nat :: !Shown(r, i)
  {
    seq(n, _ => Val(false))
  }

  /** Every position holds an element. */
  predicate NoHoles(s: Boxes) {
    forall i :: 0 <= i < |s| ==> !s[i].Hole?
  }

  /** Whether box `i` shows as checked: `!!s[i]`, or `s[i] || false`. */
  predicate Shown(s: Boxes, i: nat) {
    i < |s| && s[i] == Val(true)
  }

  /** `n` holes, as an assignment past the end leaves them. */
  function Holes(n: nat): (r: Boxes)
    ensures |r| == n && forall i :: 0 <= i < n ==> r[i].Hole?
  {
    seq(n, _ => Hole)
  }

  /** What `[...prev]` puts at a position: a hole is read as `undefined`. */
  function Copied(b: Box): Box {
    if b.Hole? then Undef else b
  }

  /** `next = [...prev]; next[i] = v`. */
  function Assign(s: Boxes, i: nat, v: bool): (r: Boxes)
    ensures |r| == if i < |s| then |s| else i + 1
    ensures r[i] == Val(v)
    ensures forall j :: 0 <= j < |s| && j != i ==> r[j] == Copied(s[j])
    ensures forall j :: 0 <= j < |s| ==> !r[j].Hole?
    ensures forall j :: |s| <= j < i ==> r[j].Hole?
    ensures forall j: nat :: Shown(r, j) == if j == i then v else Shown(s, j)
  {
    var copy := seq(|s|, j requires 0 <= j < |s| => Copied(s[j]));
    if i < |s| then copy[i := Val(v)] else copy + Holes(i - |s|) + [Val(v)]
  }

  /** An assignment inside the array keeps its length and leaves no hole, even where the old array had one. */
  lemma AssignInsideKeepsNoHoles(s: Boxes, i: nat, v: bool)
    requires i < |s|
    ensures NoHoles(Assign(s, i, v)) && |Assign(s, i, v)| == |s|
  {
  }

  /** Assigning the value a box already holds to an array without holes changes nothing. */
  lemma AssignSameValue(s: Boxes, i: nat, v: bool)
    requires NoHoles(s) && i < |s| && s[i] == Val(v)
    ensures Assign(s, i, v) == s
  {
  }

  /** `next[i] = !next[i]`: the box flips; a hole or a box past the end becomes checked. */
  function Flip(s: Boxes, i: nat): (r: Boxes)
    ensures forall j: nat :: Shown(r, j) == if j == i then !Shown(s, j) else Shown(s, j)
  {
    Assign(s, i, !Shown(s, i))
  }

  /**
   * Flipping a box twice restores how every box shows, and for an array
   * without holes whose box `i` holds a boolean, restores the array.
   */
  lemma FlipTwice(s: Boxes, i: nat)
    ensures forall j: nat :: Shown(Flip(Flip(s, i), i), j) == Shown(s, j)
    ensures i < |s| && NoHoles(s) && s[i].Val? ==> Flip(Flip(s, i), i) == s
  {
    if i < |s| && NoHoles(s) && s[i].Val? {
      var once := Flip(s, i);
      assert once == s[i := Val(!s[i].b)];
      assert Flip(once, i) == s;
    }
  }
}
