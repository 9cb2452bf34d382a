/** Small helpers shared by the service-worker model and the page-script model. */
module Common {

  datatype Option<T> = None | Some(value: T)

  /** `t` occurs in `s` starting at index `i`. */
  predicate OccursAt(s: string, t: string, i: nat)
  {
    i + |t| <= |s| && s[i..i + |t|] == t
  }

  /** JavaScript's `String.prototype.includes`: scan the start positions of `s` left to right. */
  function Includes(s: string, t: string): bool
    decreases |s|
  {
    if t <= s then true
    else if s == [] then false
    else Includes(s[1..], t)
  }

  /** `Includes` holds exactly when `t` occurs somewhere in `s`. */
  lemma {:induction false} IncludesIff(s: string, t: string)
    ensures Includes(s, t) <==> exists i: nat :: OccursAt(s, t, i)
    decreases |s|
  {
    if t <= s {
      assert s[0..|t|] == t;
      assert OccursAt(s, t, 0);
    } else if s == [] {
      forall i: nat ensures !OccursAt(s, t, i) {
      }
    } else {
      IncludesIff(s[1..], t);
      assert !OccursAt(s, t, 0);
      if Includes(s[1..], t) {
        var j: nat :| OccursAt(s[1..], t, j);
        assert s[1..][j..j + |t|] == s[j + 1..j + 1 + |t|];
        assert OccursAt(s, t, j + 1);
      } else {
        forall i: nat | OccursAt(s, t, i) ensures false {
          assert i >= 1;
          assert s[1..][i - 1..i - 1 + |t|] == s[i..i + |t|];
          assert OccursAt(s[1..], t, i - 1);
        }
      }
    }
  }

  /** A string containing a given infix includes it, whatever surrounds it. */
  lemma IncludesInfix(pre: string, t: string, post: string)
    ensures Includes(pre + t + post, t)
  {
    var s := pre + t + post;
    assert s[|pre|..|pre| + |t|] == t;
    assert OccursAt(s, t, |pre|);
    IncludesIff(s, t);
  }

  /** A string lacking one of the characters of `t` cannot include `t`. */
  lemma MissingCharExcludes(s: string, t: string, c: char)
    requires c in t && c !in s
    ensures !Includes(s, t)
  {
    IncludesIff(s, t);
    var k :| 0 <= k < |t| && t[k] == c;
    forall i: nat ensures !OccursAt(s, t, i) {
      if i + |t| <= |s| {
        assert s[i..i + |t|][k] == s[i + k];
      }
    }
  }

  /**
   * When the first character of `t` does not occur in `a`, no occurrence of `t` in `a + b`
   * starts inside `a`, so `t` occurs in `a + b` only if it occurs in `b`.
   */
  lemma FirstCharOutside(a: string, b: string, t: string)
    requires |t| > 0 && t[0] !in a && !Includes(b, t)
    ensures !Includes(a + b, t)
  {
    var s := a + b;
    IncludesIff(s, t);
    IncludesIff(b, t);
    forall i: nat ensures !OccursAt(s, t, i) {
      if i + |t| <= |s| {
        if i < |a| {
          assert s[i..i + |t|][0] == a[i];
        } else {
          assert s[i..i + |t|] == b[i - |a|..i - |a| + |t|];
          assert !OccursAt(b, t, i - |a|);
        }
      }
    }
  }

  /**
   * When `t[j]` does not occur in `b`, `t[j + 1]` does not occur in `a`, and `a` does not end
   * with `t[j]`, no occurrence of `t` in `a + b` can lie in `a`, in `b` or across the seam.
   */
  lemma AdjacentCharsSplit(a: string, b: string, t: string, j: nat)
    requires j + 1 < |t| && t[j] !in b && t[j + 1] !in a
    requires a == [] || a[|a| - 1] != t[j]
    ensures !Includes(a + b, t)
  {
    var s := a + b;
    IncludesIff(s, t);
    forall i: nat ensures !OccursAt(s, t, i) {
      if i + |t| <= |s| {
        assert s[i..i + |t|][j] == s[i + j];
        assert s[i..i + |t|][j + 1] == s[i + j + 1];
        if i + j >= |a| {
          assert s[i + j] == b[i + j - |a|];
        } else if i + j + 1 < |a| {
          assert s[i + j + 1] == a[i + j + 1];
        } else {
          assert s[i + j] == a[|a| - 1];
        }
      }
    }
  }
}
