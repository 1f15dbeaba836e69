/** The few parts of the Python runtime the filtering core leans on: `None`,
    raised exceptions, and the `in` operator on two strings. */
module Python {

  /** A Python value that may be `None`. */
  datatype Option<+T> = None | Some(value: T)

  /** The exceptions the core raises or lets through. `Raised` is a call that
      ends by raising instead of returning. */
  datatype Exception =
    | TypeError(message: string)
    | KeyError(key: string)
    | AssertionError
    | ValueError(message: string)
    | Exception(message: string)

  datatype Result<+T> = Ok(value: T) | Raised(error: Exception)

  /** `p` is a prefix of `s`. */
  predicate IsPrefix(p: string, s: string)
  {
    |p| <= |s| && s[..|p|] == p
  }

  /** Python's `sub in s` for two strings: `sub` occurs in `s` as a
      contiguous substring (the empty string occurs in every string). */
  predicate In(sub: string, s: string)
    decreases |s|
  {
    IsPrefix(sub, s) || (|s| > 0 && In(sub, s[1..]))
  }

  /** `sub` occurs in `s` starting at position `i`. */
  predicate OccursAt(sub: string, s: string, i: int)
  {
    0 <= i && i + |sub| <= |s| && s[i..i + |sub|] == sub
  }

  /** `In` agrees with the positional reading of substring containment. */
  lemma {:induction false} InIffOccurs(sub: string, s: string)
    ensures In(sub, s) <==> exists i :: OccursAt(sub, s, i)
    decreases |s|
  {
    if IsPrefix(sub, s) {
      assert OccursAt(sub, s, 0);
    } else if |s| == 0 {
      forall i ensures !OccursAt(sub, s, i) {
      }
    } else {
      InIffOccurs(sub, s[1..]);
      if In(sub, s[1..]) {
        var i :| OccursAt(sub, s[1..], i);
        assert s[i + 1..i + 1 + |sub|] == s[1..][i..i + |sub|];
        assert OccursAt(sub, s, i + 1);
      } else {
        forall i | 0 < i && i + |sub| <= |s| ensures !OccursAt(sub, s, i) {
          assert s[i..i + |sub|] == s[1..][i - 1..i - 1 + |sub|];
          assert !OccursAt(sub, s[1..], i - 1);
        }
        assert !OccursAt(sub, s, 0);
      }
    }
  }
}
