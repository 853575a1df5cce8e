/** The set of the elements of a sequence, or of what a function makes of them. */
module Sequences {
  function Elements<T>(s: seq<T>): set<T> {
    set i | 0 <= i < |s| :: s[i]
  }

  function Image<T, R>(s: seq<T>, f: T -> R): set<R> {
    set i | 0 <= i < |s| :: f(s[i])
  }

  lemma ElementsSnoc<T>(s: seq<T>, x: T)
    ensures Elements(s + [x]) == Elements(s) + {x}
  {
    assert (s + [x])[|s|] == x;
    forall y | y in Elements(s) ensures y in Elements(s + [x]) {
      var i :| 0 <= i < |s| && s[i] == y;
      assert (s + [x])[i] == y;
    }
  }

  lemma ImageSnoc<T, R>(s: seq<T>, x: T, f: T -> R)
    ensures Image(s + [x], f) == Image(s, f) + {f(x)}
  {
    assert (s + [x])[|s|] == x;
    forall y | y in Image(s, f) ensures y in Image(s + [x], f) {
      var i :| 0 <= i < |s| && f(s[i]) == y;
      assert (s + [x])[i] == s[i];
    }
  }
}
