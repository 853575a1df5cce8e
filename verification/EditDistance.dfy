/** The currency search's typo tolerance: a linear scan that decides whether two
    words are at most one edit apart, proved against the recursive Levenshtein
    distance. */
module EditDistance {
  function Min(x: nat, y: nat): nat {
    if x <= y then x else y
  }

  /** The textbook distance: insertions, deletions and substitutions cost one each. */
  ghost function Lev(a: string, b: string): nat
    decreases |a| + |b|
  {
    if a == [] then |b|
    else if b == [] then |a|
    else
      Min(Min(Lev(a[1..], b) + 1, Lev(a, b[1..]) + 1),
          Lev(a[1..], b[1..]) + if a[0] == b[0] then 0 else 1)
  }

  lemma {:induction false} LevSymmetric(a: string, b: string)
    ensures Lev(a, b) == Lev(b, a)
    decreases |a| + |b|
  {
    if a != [] && b != [] {
      LevSymmetric(a[1..], b);
      LevSymmetric(a, b[1..]);
      LevSymmetric(a[1..], b[1..]);
    }
  }

  /** Dropping one character moves the distance by at most one. */
  lemma {:induction false} LevLipschitz(a: string, b: string)
    requires b != []
    ensures Lev(a, b[1..]) <= Lev(a, b) + 1
    ensures Lev(a, b) <= Lev(a, b[1..]) + 1
    decreases |a| + |b|
  {
    if a != [] {
      LevLipschitz(a[1..], b);
      if |b| > 1 {
        LevLipschitz(a, b[1..]);
        LevLipschitz(a[1..], b[1..]);
      }
      LevDropLeft(a, b[1..]);
    }
  }

  lemma {:induction false} LevDropLeft(a: string, b: string)
    requires a != []
    ensures Lev(a[1..], b) <= Lev(a, b) + 1
    decreases |a| + |b|
  {
    if b != [] {
      LevDropLeft(a, b[1..]);
      LevLipschitz(a[1..], b);
    }
  }

  /** A common first character can always be matched with itself. */
  lemma {:induction false} LevCommonHead(a: string, b: string)
    requires a != [] && b != [] && a[0] == b[0]
    ensures Lev(a, b) == Lev(a[1..], b[1..])
  {
    LevLipschitz(a[1..], b);
    LevDropLeft(a, b[1..]);
  }

  lemma {:induction false} LevZero(a: string, b: string)
    ensures Lev(a, b) == 0 <==> a == b
    decreases |a| + |b|
  {
    if a != [] && b != [] {
      LevZero(a[1..], b[1..]);
      assert a == [a[0]] + a[1..] && b == [b[0]] + b[1..];
    }
  }

  /** The length difference is a lower bound. */
  lemma {:induction false} LevAtLeastLengthGap(a: string, b: string)
    ensures Lev(a, b) >= |a| - |b| && Lev(a, b) >= |b| - |a|
    decreases |a| + |b|
  {
    if a != [] && b != [] {
      LevAtLeastLengthGap(a[1..], b);
      LevAtLeastLengthGap(a, b[1..]);
      LevAtLeastLengthGap(a[1..], b[1..]);
    }
  }

  /** At a first mismatch the single edit is forced: a substitution when the
      lengths agree, an insertion into the shorter word when they differ. */
  lemma {:induction false} LevForcedEdit(a: string, b: string)
    requires a != [] && b != [] && a[0] != b[0]
    requires |a| <= |b| <= |a| + 1
    ensures |a| == |b| ==> (Lev(a, b) <= 1 <==> a[1..] == b[1..])
    ensures |a| < |b| ==> (Lev(a, b) <= 1 <==> a == b[1..])
  {
    LevZero(a[1..], b);
    LevZero(a, b[1..]);
    LevZero(a[1..], b[1..]);
  }

  /** `levenshteinAtMost1`: the scan with its single argument swap. */
  method LevenshteinAtMost1(a: string, b: string) returns (close: bool)
    ensures close <==> Lev(a, b) <= 1
    decreases if |a| > |b| then 1 else 0
  {
    LevZero(a, b);
    if a == b { return true; }
    var la, lb := |a|, |b|;
    LevAtLeastLengthGap(a, b);
    if la - lb > 1 || lb - la > 1 { return false; }
    if la > lb {
      LevSymmetric(a, b);
      close := LevenshteinAtMost1(b, a);
      return;
    }
    var i, j, edits := 0, 0, 0;
    while i < la && j < lb
      invariant 0 <= i <= la && 0 <= j <= lb
      invariant edits == 0 ==> i == j && Lev(a, b) == Lev(a[i..], b[j..])
      invariant edits != 0 ==>
                  edits == 1 && la - i == lb - j && (Lev(a, b) <= 1 <==> a[i..] == b[j..])
      decreases lb - j
    {
      assert a[i..][1..] == a[i + 1..] && b[j..][1..] == b[j + 1..];
      if a[i] == b[j] {
        if edits == 0 { LevCommonHead(a[i..], b[j..]); }
        assert a[i..] == [a[i]] + a[i + 1..] && b[j..] == [b[j]] + b[j + 1..];
        i, j := i + 1, j + 1;
      } else {
        if edits == 0 { LevForcedEdit(a[i..], b[j..]); }
        edits := edits + 1;
        if edits > 1 {
          assert a[i..][0] != b[j..][0];
          return false;
        }
        if la == lb {
          i, j := i + 1, j + 1;
        } else {
          j := j + 1;
        }
      }
    }
    assert edits == 0 ==> a[i..] == [];
    return edits + (lb - j) <= 1;
  }
}
