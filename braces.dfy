/**
 * Locating the JSON object in a model completion by its braces, in the three
 * forms the endpoints use: slicing from the first '{' to the last '}', and the
 * greedy regular expressions /\{[\s\S]*\}/ and /\{[\s\S]+\}/.
 */
module Braces {
  import opened Wrappers
  import opened Text

  /** A span `s[start..end]` of a string. */
  datatype Span = Span(start: nat, end: nat)

  /**
   * `s.substring(first '{', last '}' + 1)` when the first '{' comes before the
   * last '}': the result starts with '{', ends with '}', and no '{' precedes it
   * and no '}' follows it.
   */
  function BraceSlice(s: string): (r: Option<string>)
    ensures r.Some? <==> '{' in s && '}' in s && IndexOf(s, '{') < LastIndexOf(s, '}')
    ensures r.Some? ==> var f, l := IndexOf(s, '{'), LastIndexOf(s, '}');
      && r.value == s[f..l + 1]
      && '{' !in s[..f] && '}' !in s[l + 1..]
      && |r.value| >= 2 && r.value[0] == '{' && r.value[|r.value| - 1] == '}'
  {
    var f, l := IndexOf(s, '{'), LastIndexOf(s, '}');
    if f != -1 && l > f then Some(s[f..l + 1]) else None
  }

  /**
   * `s[i..j]` is matched by /\{[\s\S]*\}/ (`minInner` 0) or /\{[\s\S]+\}/
   * (`minInner` 1) started at `i`, whichever match the engine prefers.
   */
  ghost predicate BraceMatchAt(s: string, i: nat, j: nat, minInner: nat) {
    i + 2 + minInner <= j <= |s| && s[i] == '{' && s[j - 1] == '}'
  }

  /**
   * The match of /\{[\s\S]*\}/ (`minInner` 0) or /\{[\s\S]+\}/ (`minInner` 1):
   * the leftmost start, which is the first '{', extended greedily to the last
   * '}'. There is no match when no '}' lies far enough past the first '{'.
   */
  function GreedyBraceMatch(s: string, minInner: nat): (m: Option<Span>)
    ensures m.Some? ==> BraceMatchAt(s, m.value.start, m.value.end, minInner)
    ensures m.Some? ==> '{' !in s[..m.value.start] && '}' !in s[m.value.end..]
    ensures m.None? ==> forall i: nat, j: nat :: !BraceMatchAt(s, i, j, minInner)
  {
    var f, l := IndexOf(s, '{'), LastIndexOf(s, '}');
    if f != -1 && l != -1 && f + 1 + minInner <= l then Some(Span(f, l + 1))
    else
      NoBraceMatch(s, minInner);
      None
  }

  /** A match starts at or after the first '{' and ends at or before the last '}'. */
  lemma BraceMatchBounds(s: string, i: nat, j: nat, minInner: nat)
    requires BraceMatchAt(s, i, j, minInner)
    ensures 0 <= IndexOf(s, '{') <= i
    ensures j - 1 <= LastIndexOf(s, '}')
  {
    assert s[i] == '{';
    assert s[j - 1] == '}';
  }

  lemma NoBraceMatch(s: string, minInner: nat)
    requires !(IndexOf(s, '{') != -1 && LastIndexOf(s, '}') != -1 && IndexOf(s, '{') + 1 + minInner <= LastIndexOf(s, '}'))
    ensures forall i: nat, j: nat :: !BraceMatchAt(s, i, j, minInner)
  {
    forall i: nat, j: nat | BraceMatchAt(s, i, j, minInner)
      ensures false
    {
      BraceMatchBounds(s, i, j, minInner);
    }
  }

  /** /\{[\s\S]*\}/ selects exactly the first-'{'-to-last-'}' slice, and matches exactly when it exists. */
  lemma StarMatchIsSlice(s: string)
    ensures GreedyBraceMatch(s, 0).Some? <==> BraceSlice(s).Some?
    ensures GreedyBraceMatch(s, 0).Some? ==>
      s[GreedyBraceMatch(s, 0).value.start..GreedyBraceMatch(s, 0).value.end] == BraceSlice(s).value
  {
  }

  /**
   * Whenever /\{[\s\S]+\}/ matches, the slice exists and the match selects the
   * same text.
   */
  lemma PlusMatchIsSlice(s: string)
    requires GreedyBraceMatch(s, 1).Some?
    ensures BraceSlice(s).Some?
    ensures s[GreedyBraceMatch(s, 1).value.start..GreedyBraceMatch(s, 1).value.end] == BraceSlice(s).value
  {
  }
}
