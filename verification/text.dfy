/** Java's `String.contains`, over strings as sequences of characters. */
module Text {

  /** `prefix` is an initial segment of `s`. */
  predicate StartsWith(s: string, prefix: string) {
    |prefix| <= |s| && s[..|prefix|] == prefix
  }

  /** The scan `String.contains` performs: `kw` starts at some position of
      `s`, tried from the front. */
  predicate Contains(s: string, kw: string)
    decreases |s|
  {
    StartsWith(s, kw) || (|s| > 0 && Contains(s[1..], kw))
  }

  /** `kw` occurs in `s` starting at index `i`. */
  ghost predicate OccursAt(s: string, kw: string, i: int) {
    0 <= i && i + |kw| <= |s| && s[i..i + |kw|] == kw
  }

  /** The scan finds `kw` exactly when `kw` is a substring of `s`. */
  lemma {:induction false} ContainsIffOccurs(s: string, kw: string)
    ensures Contains(s, kw) <==> exists i :: OccursAt(s, kw, i)
    decreases |s|
  {
    if Contains(s, kw) {
      if StartsWith(s, kw) {
        assert OccursAt(s, kw, 0);
      } else {
        ContainsIffOccurs(s[1..], kw);
        var i :| OccursAt(s[1..], kw, i);
        assert s[1..][i..i + |kw|] == s[i + 1..i + 1 + |kw|];
        assert OccursAt(s, kw, i + 1);
      }
    }
    if exists i :: OccursAt(s, kw, i) {
      var i :| OccursAt(s, kw, i);
      if i == 0 {
        assert StartsWith(s, kw);
      } else {
        assert s[1..][i - 1..i - 1 + |kw|] == s[i..i + |kw|];
        assert OccursAt(s[1..], kw, i - 1);
        ContainsIffOccurs(s[1..], kw);
      }
    }
  }

  /** Every string contains the empty string. */
  lemma ContainsEmpty(s: string)
    ensures Contains(s, "")
  {
    assert StartsWith(s, "");
  }

  /** A string only contains keywords no longer than itself. */
  lemma {:induction false} ContainsBoundsLength(s: string, kw: string)
    ensures Contains(s, kw) ==> |kw| <= |s|
    decreases |s|
  {
    if |s| > 0 {
      ContainsBoundsLength(s[1..], kw);
    }
  }

  /** A keyword holding a character that `s` lacks does not occur in `s`. */
  lemma {:induction false} MissingCharNotContained(s: string, kw: string, c: char)
    requires c in kw && c !in s
    ensures !Contains(s, kw)
    decreases |s|
  {
    if |s| > 0 {
      MissingCharNotContained(s[1..], kw, c);
    }
  }
}
