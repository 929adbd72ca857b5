/** Small shared datatypes. */
module Common {

  datatype Option<+T> = None | Some(value: T)

  function Min(a: int, b: int): int {
    if a <= b then a else b
  }

  function Max(a: int, b: int): int {
    if a >= b then a else b
  }

  // ASCII case folding.
  function LowerChar(c: char): char {
    if 'A' <= c <= 'Z' then (c as int - 'A' as int + 'a' as int) as char else c
  }

  function Lower(s: string): (r: string)
    ensures |r| == |s|
  {
    if s == "" then "" else [LowerChar(s[0])] + Lower(s[1..])
  }

  lemma {:induction false} LowerIdempotent(s: string)
    ensures Lower(Lower(s)) == Lower(s)
  {
    if s != "" {
      LowerIdempotent(s[1..]);
      assert Lower(s)[1..] == Lower(s[1..]);
    }
  }

  /** The same letter, in either case. */
  predicate SameLetter(a: char, b: char) {
    || a == b
    || ('A' <= a <= 'Z' && b as int == a as int + 32)
    || ('A' <= b <= 'Z' && a as int == b as int + 32)
  }

  /** Two texts fold to one exactly when they are the same letter by letter, in either case. */
  lemma {:induction false} SameIgnoringCaseIff(s: string, t: string)
    ensures Lower(s) == Lower(t) <==> |s| == |t| && forall i | 0 <= i < |s| :: SameLetter(s[i], t[i])
    decreases |s|
  {
    if s != "" && |s| == |t| {
      SameIgnoringCaseIff(s[1..], t[1..]);
      assert Lower(s)[1..] == Lower(s[1..]) && Lower(t)[1..] == Lower(t[1..]);
      assert Lower(s)[0] == Lower(t)[0] <==> SameLetter(s[0], t[0]);
      assert Lower(s) == [Lower(s)[0]] + Lower(s[1..]) && Lower(t) == [Lower(t)[0]] + Lower(t[1..]);
      assert (forall i | 0 <= i < |s| :: SameLetter(s[i], t[i])) <==>
               SameLetter(s[0], t[0]) && forall i | 0 <= i < |s| - 1 :: SameLetter(s[1..][i], t[1..][i]) by {
        if SameLetter(s[0], t[0]) && forall i | 0 <= i < |s| - 1 :: SameLetter(s[1..][i], t[1..][i]) {
          forall i | 0 <= i < |s| ensures SameLetter(s[i], t[i]) {
            if i > 0 {
              assert SameLetter(s[1..][i - 1], t[1..][i - 1]);
            }
          }
        }
      }
    }
  }

  lemma SubsetIsNoLarger<T>(small: set<T>, large: set<T>)
    requires small <= large
    ensures |small| <= |large|
  {
    assert large == small + (large - small);
  }
}
