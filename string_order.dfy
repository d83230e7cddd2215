/** Lexicographic order on strings by code point, the order `Array.sort()`
    puts the tag lists in (it compares UTF-16 code units, which agree with
    code points below U+10000). */
module StringOrder {
  /** `a` sorts strictly before `b`. */
  predicate Below(a: string, b: string)
    decreases |a|
  {
    b != [] && (a == [] || a[0] < b[0] || (a[0] == b[0] && Below(a[1..], b[1..])))
  }

  predicate StrictlyAscending(xs: seq<string>) {
    forall i, j :: 0 <= i < j < |xs| ==> Below(xs[i], xs[j])
  }

  lemma {:induction false} BelowIrreflexive(a: string)
    ensures !Below(a, a)
    decreases |a|
  {
    if a != [] {
      BelowIrreflexive(a[1..]);
    }
  }

  lemma {:induction false} BelowTransitive(a: string, b: string, c: string)
    requires Below(a, b) && Below(b, c)
    ensures Below(a, c)
    decreases |a|
  {
    if a != [] && a[0] == b[0] && b[0] == c[0] {
      BelowTransitive(a[1..], b[1..], c[1..]);
    }
  }

  lemma {:induction false} BelowTotal(a: string, b: string)
    requires a != b
    ensures Below(a, b) || Below(b, a)
    decreases |a|
  {
    if a != [] && b != [] && a[0] == b[0] {
      assert a == [a[0]] + a[1..] && b == [b[0]] + b[1..];
      BelowTotal(a[1..], b[1..]);
    }
  }

  lemma BelowAsymmetric(a: string, b: string)
    requires Below(a, b)
    ensures !Below(b, a)
  {
    if Below(b, a) {
      BelowTransitive(a, b, a);
      BelowIrreflexive(a);
    }
  }

  /** Adds `t` to a strictly ascending list unless it is already there: the
      `Set.add` of the tag collection together with the final sort. */
  function InsertAscending(xs: seq<string>, t: string): (r: seq<string>)
    requires StrictlyAscending(xs)
    ensures StrictlyAscending(r)
    ensures forall x :: x in r <==> x in xs || x == t
  {
    if xs == [] then [t]
    else if xs[0] == t then xs
    else if Below(t, xs[0]) then
      InsertBeforeHead(xs, t);
      [t] + xs
    else
      BelowTotal(t, xs[0]);
      var rest := InsertAscending(xs[1..], t);
      assert forall x :: x in rest ==> Below(xs[0], x);
      [xs[0]] + rest
  }

  lemma InsertBeforeHead(xs: seq<string>, t: string)
    requires StrictlyAscending(xs) && xs != [] && Below(t, xs[0])
    ensures StrictlyAscending([t] + xs)
  {
    forall j | 0 < j < |xs| ensures Below(t, xs[j]) {
      BelowTransitive(t, xs[0], xs[j]);
    }
  }

  lemma TailAvoidsHead(xs: seq<string>)
    requires StrictlyAscending(xs) && xs != []
    ensures xs[0] !in xs[1..]
  {
    BelowIrreflexive(xs[0]);
    assert forall j :: 1 <= j < |xs| ==> Below(xs[0], xs[j]);
  }

  /** A strictly ascending list is determined by the strings it holds. */
  lemma {:induction false} AscendingUnique(xs: seq<string>, ys: seq<string>)
    requires StrictlyAscending(xs) && StrictlyAscending(ys)
    requires forall x :: x in xs <==> x in ys
    ensures xs == ys
    decreases |xs|
  {
    if xs != [] {
      assert xs[0] in ys;
    }
    if ys != [] {
      assert ys[0] in xs;
    }
    if xs != [] && ys != [] {
      if xs[0] != ys[0] {
        var i :| 0 <= i < |ys| && ys[i] == xs[0];
        var j :| 0 <= j < |xs| && xs[j] == ys[0];
        BelowAsymmetric(xs[0], ys[0]);
      }
      forall x ensures x in xs[1..] <==> x in ys[1..] {
        assert x in xs <==> x == xs[0] || x in xs[1..];
        assert x in ys <==> x == ys[0] || x in ys[1..];
        TailAvoidsHead(xs);
        TailAvoidsHead(ys);
      }
      AscendingUnique(xs[1..], ys[1..]);
    }
  }
}
