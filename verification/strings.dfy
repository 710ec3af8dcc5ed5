/** The two string methods the story loader relies on: `includes` and
    `replace` with a string pattern (first occurrence only). */
module JsStrings {

  /** `pat` occurs in `s` at position `i`. */
  predicate OccursAt(s: string, pat: string, i: int) {
    0 <= i && i + |pat| <= |s| && s[i..i + |pat|] == pat
  }

  /** `s.indexOf(pat, from)`: the first occurrence at or after `from`, or -1.
      A start beyond the end is clamped to the length, so an empty pattern is
      found at `|s|`. */
  function IndexOf(s: string, pat: string, from: nat): (r: int)
    ensures var f := if from <= |s| then from else |s|;
            && (r == -1 || (f <= r && OccursAt(s, pat, r)))
            && (r >= 0 ==> forall j :: f <= j < r ==> !OccursAt(s, pat, j))
            && (r == -1 ==> forall j :: f <= j ==> !OccursAt(s, pat, j))
    decreases if from <= |s| then |s| - from else |s| + 1
  {
    if from > |s| then IndexOf(s, pat, |s|)
    else if from + |pat| > |s| then -1
    else if s[from..from + |pat|] == pat then from
    else IndexOf(s, pat, from + 1)
  }

  /** `s.includes(pat)`. */
  predicate Includes(s: string, pat: string) {
    IndexOf(s, pat, 0) >= 0
  }

  lemma IncludesIff(s: string, pat: string)
    ensures Includes(s, pat) <==> exists i :: OccursAt(s, pat, i)
  {
  }

  /** `s.replace(pat, repl)`: the first occurrence is replaced, the rest of `s` is kept. */
  function ReplaceFirst(s: string, pat: string, repl: string): (r: string)
    ensures var i := IndexOf(s, pat, 0);
            && (i < 0 ==> r == s)
            && (i >= 0 ==> |r| == |s| - |pat| + |repl| && r[..i] == s[..i]
                           && r[i..i + |repl|] == repl && r[i + |repl|..] == s[i + |pat|..])
  {
    var i := IndexOf(s, pat, 0);
    if i < 0 then s else s[..i] + repl + s[i + |pat|..]
  }
}
