/**
 * The excluded-flags mask of `calculateFlags` (datasource.ts): the bits of
 * every data-quality flag the configuration switches on, folded with XOR.
 * The table of flag bits (`DefaultFlags` in `./js/constants`) is a parameter.
 */
module ExcludedFlags {
  import opened Types

  /** The pseudo-flag reported on its own as `excludeNormalFlags`; like "Select All" it has no bit. */
  const Normal: string := "Normal"

  /** An entry whose bit `calculateFlags` folds into the mask. */
  predicate Excludes(e: (string, bool))
  {
    e.0 != SelectAll && e.0 != Normal && e.1
  }

  /** Every contributing entry has a bit in the table; otherwise the lookup throws. */
  predicate Covered(flags: Entries<bool>, table: map<string, bv32>)
  {
    forall i :: 0 <= i < |flags| && Excludes(flags[i]) ==> flags[i].0 in table
  }

  /** What one entry contributes: its bit when it excludes, else nothing. */
  function Bit(e: (string, bool), table: map<string, bv32>): bv32
    requires Excludes(e) ==> e.0 in table
  {
    if Excludes(e) then table[e.0] else 0
  }

  /** What each entry contributes, in enumeration order. */
  function Bits(flags: Entries<bool>, table: map<string, bv32>): (bs: seq<bv32>)
    requires Covered(flags, table)
    ensures |bs| == |flags|
    ensures forall i :: 0 <= i < |flags| ==> bs[i] == Bit(flags[i], table)
  {
    seq(|flags|, i requires 0 <= i < |flags| => Bit(flags[i], table))
  }

  /** XOR of a run of words, folded from the left. */
  function XorAll(ws: seq<bv32>): bv32
  {
    if ws == [] then 0 else XorAll(ws[..|ws| - 1]) ^ ws[|ws| - 1]
  }

  /** The mask: the XOR of every entry's contribution. */
  function Mask(flags: Entries<bool>, table: map<string, bv32>): bv32
    requires Covered(flags, table)
  {
    XorAll(Bits(flags, table))
  }

  /** The entries that contribute, in order. */
  function Contributing(flags: Entries<bool>): (c: Entries<bool>)
    ensures forall e :: e in c <==> e in flags && Excludes(e)
    ensures |c| <= |flags|
  {
    if flags == [] then []
    else Contributing(flags[..|flags| - 1]) + (if Excludes(flags[|flags| - 1]) then [flags[|flags| - 1]] else [])
  }

  lemma {:induction false} CoveredParts(a: Entries<bool>, b: Entries<bool>, table: map<string, bv32>)
    requires Covered(a + b, table)
    ensures Covered(a, table) && Covered(b, table)
  {
    assert forall i :: 0 <= i < |a| ==> a[i] == (a + b)[i];
    assert forall i :: 0 <= i < |b| ==> b[i] == (a + b)[|a| + i];
  }

  lemma {:induction false} CoveredJoin(a: Entries<bool>, b: Entries<bool>, table: map<string, bv32>)
    requires Covered(a, table) && Covered(b, table)
    ensures Covered(a + b, table)
  {
    forall i | 0 <= i < |a + b| && Excludes((a + b)[i])
      ensures (a + b)[i].0 in table
    {
      if i >= |a| {
        assert (a + b)[i] == b[i - |a|];
      }
    }
  }

  lemma {:induction false} XorAllAppend(u: seq<bv32>, v: seq<bv32>)
    ensures XorAll(u + v) == XorAll(u) ^ XorAll(v)
  {
    if v == [] {
      assert u + v == u;
    } else {
      var v' := v[..|v| - 1];
      assert (u + v)[..|u + v| - 1] == u + v';
      XorAllAppend(u, v');
    }
  }

  lemma {:induction false} XorAllWithout(u: seq<bv32>, w: bv32, v: seq<bv32>)
    ensures XorAll(u + [w] + v) == XorAll(u + v) ^ w
  {
    XorAllAppend(u + [w], v);
    XorAllAppend(u, [w]);
    XorAllAppend(u, v);
    assert [w][..0] == [];
  }

  /** One more word folded in. */
  lemma XorAllStep(ws: seq<bv32>, i: nat)
    requires i < |ws|
    ensures XorAll(ws[..i + 1]) == XorAll(ws[..i]) ^ ws[i]
  {
    assert ws[..i + 1][..i] == ws[..i];
  }

  /** Folding in a word known to be `w` XORs `w` in. */
  lemma XorAllStepWith(ws: seq<bv32>, i: nat, w: bv32)
    requires i < |ws| && ws[i] == w
    ensures XorAll(ws[..i + 1]) == XorAll(ws[..i]) ^ w
  {
    XorAllStep(ws, i);
  }

  /** Folding in a zero word changes nothing. */
  lemma XorAllStepZero(ws: seq<bv32>, i: nat)
    requires i < |ws| && ws[i] == 0
    ensures XorAll(ws[..i + 1]) == XorAll(ws[..i])
  {
    XorAllStep(ws, i);
    XorZero(XorAll(ws[..i]));
  }

  /** One more entry of the mask: an excluding entry XORs its bit in, any other leaves the mask as it was. */
  lemma MaskStep(flags: Entries<bool>, table: map<string, bv32>, i: nat)
    requires Covered(flags, table)
    requires i < |flags|
    ensures Excludes(flags[i]) ==> XorAll(Bits(flags, table)[..i + 1]) == XorAll(Bits(flags, table)[..i]) ^ table[flags[i].0]
    ensures !Excludes(flags[i]) ==> XorAll(Bits(flags, table)[..i + 1]) == XorAll(Bits(flags, table)[..i])
  {
    var bits := Bits(flags, table);
    if Excludes(flags[i]) {
      XorAllStepWith(bits, i, table[flags[i].0]);
    } else {
      XorAllStepZero(bits, i);
    }
  }

  lemma XorZero(w: bv32)
    ensures w ^ 0 == w
  {
  }

  lemma XorAllSingle(w: bv32)
    ensures XorAll([w]) == w
  {
    assert [w][..0] == [];
  }

  lemma {:induction false} XorAllZeros(ws: seq<bv32>)
    requires forall i :: 0 <= i < |ws| ==> ws[i] == 0
    ensures XorAll(ws) == 0
  {
    if ws != [] {
      XorAllZeros(ws[..|ws| - 1]);
    }
  }

  lemma {:induction false} BitsAppend(a: Entries<bool>, b: Entries<bool>, table: map<string, bv32>)
    requires Covered(a + b, table)
    ensures Covered(a, table) && Covered(b, table)
    ensures Bits(a + b, table) == Bits(a, table) + Bits(b, table)
  {
    CoveredParts(a, b, table);
    assert forall i :: 0 <= i < |b| ==> (a + b)[|a| + i] == b[i];
  }

  /** With no entry switched on (other than the pseudo-flags) the mask is 0. */
  lemma MaskOfNothing(flags: Entries<bool>, table: map<string, bv32>)
    requires forall i :: 0 <= i < |flags| ==> !Excludes(flags[i])
    ensures Covered(flags, table) && Mask(flags, table) == 0
  {
    XorAllZeros(Bits(flags, table));
  }

  /** Folding two runs of entries one after the other XORs their masks. */
  lemma MaskAppend(a: Entries<bool>, b: Entries<bool>, table: map<string, bv32>)
    requires Covered(a + b, table)
    ensures Covered(a, table) && Covered(b, table)
    ensures Mask(a + b, table) == Mask(a, table) ^ Mask(b, table)
  {
    BitsAppend(a, b, table);
    XorAllAppend(Bits(a, table), Bits(b, table));
  }

  /** Taking one entry out of the fold removes exactly its contribution. */
  lemma MaskWithout(a: Entries<bool>, e: (string, bool), b: Entries<bool>, table: map<string, bv32>)
    requires Covered(a + [e] + b, table)
    ensures Excludes(e) ==> e.0 in table
    ensures Covered(a + b, table)
    ensures Mask(a + [e] + b, table) == Mask(a + b, table) ^ Bit(e, table)
  {
    BitsAppend(a + [e], b, table);
    BitsAppend(a, [e], table);
    assert [e][0] == e;
    assert Bits([e], table) == [Bit(e, table)];
    CoveredJoin(a, b, table);
    BitsAppend(a, b, table);
    XorAllWithout(Bits(a, table), Bit(e, table), Bits(b, table));
  }

  /** An entry that is false, "Select All" or "Normal" can be added or removed anywhere. */
  lemma {:induction false} MaskIgnores(a: Entries<bool>, e: (string, bool), b: Entries<bool>, table: map<string, bv32>)
    requires !Excludes(e)
    requires Covered(a + b, table)
    ensures Covered(a + [e] + b, table)
    ensures Mask(a + [e] + b, table) == Mask(a + b, table)
  {
    CoveredParts(a, b, table);
    CoveredJoin(a, [e], table);
    CoveredJoin(a + [e], b, table);
    MaskWithout(a, e, b, table);
  }

  /** The mask of a single entry is its contribution. */
  lemma MaskSingle(e: (string, bool), table: map<string, bv32>)
    requires Excludes(e) ==> e.0 in table
    ensures Covered([e], table)
    ensures Mask([e], table) == Bit(e, table)
  {
    assert [e][0] == e;
    assert Bits([e], table) == [Bit(e, table)];
    XorAllSingle(Bit(e, table));
  }

  /** An entry that contributes is kept, and its bit goes into both masks. */
  lemma ContributingStepKeep(init: Entries<bool>, last: (string, bool), table: map<string, bv32>)
    requires Excludes(last)
    requires Covered(init + [last], table)
    requires Covered(Contributing(init), table) && Mask(Contributing(init), table) == Mask(init, table)
    ensures Covered(Contributing(init + [last]), table)
    ensures Mask(Contributing(init + [last]), table) == Mask(init + [last], table)
  {
    assert (init + [last])[..|init + [last]| - 1] == init;
    assert Contributing(init + [last]) == Contributing(init) + [last];
    CoveredParts(init, [last], table);
    MaskSingle(last, table);
    MaskAppend(init, [last], table);
    CoveredJoin(Contributing(init), [last], table);
    MaskAppend(Contributing(init), [last], table);
  }

  /** An entry that does not contribute is dropped, and adds nothing to the mask. */
  lemma ContributingStepSkip(init: Entries<bool>, last: (string, bool), table: map<string, bv32>)
    requires !Excludes(last)
    requires Covered(init + [last], table)
    requires Covered(Contributing(init), table) && Mask(Contributing(init), table) == Mask(init, table)
    ensures Covered(Contributing(init + [last]), table)
    ensures Mask(Contributing(init + [last]), table) == Mask(init + [last], table)
  {
    assert (init + [last])[..|init + [last]| - 1] == init;
    assert Contributing(init + [last]) == Contributing(init);
    CoveredParts(init, [last], table);
    MaskSingle(last, table);
    MaskAppend(init, [last], table);
    XorZero(Mask(init, table));
  }

  /** Only the contributing entries matter: dropping all the others keeps the mask. */
  lemma {:induction false} MaskOfContributing(flags: Entries<bool>, table: map<string, bv32>)
    requires Covered(flags, table)
    ensures Covered(Contributing(flags), table)
    ensures Mask(Contributing(flags), table) == Mask(flags, table)
  {
    if flags != [] {
      var init, last := flags[..|flags| - 1], flags[|flags| - 1];
      assert flags == init + [last];
      CoveredParts(init, [last], table);
      MaskOfContributing(init, table);
      if Excludes(last) {
        ContributingStepKeep(init, last, table);
      } else {
        ContributingStepSkip(init, last, table);
      }
    }
  }

  /** Taking the last element of `u` and an equal element of `v` out of both keeps their multisets equal. */
  lemma MultisetWithout<T>(u: seq<T>, v: seq<T>, i: nat)
    requires multiset(u) == multiset(v)
    requires u != [] && i < |v| && v[i] == u[|u| - 1]
    ensures multiset(u[..|u| - 1]) == multiset(v[..i] + v[i + 1..])
  {
    var init, last := u[..|u| - 1], u[|u| - 1];
    var a, b := v[..i], v[i + 1..];
    assert u == init + [last];
    assert multiset(u) == multiset(init) + multiset{last};
    assert v == a + [last] + b;
    assert multiset(v) == multiset(a) + multiset{last} + multiset(b);
    calc {
      multiset(init);
      multiset(u) - multiset{last};
      multiset(v) - multiset{last};
      multiset(a) + multiset(b);
      multiset(a + b);
    }
  }

  /** The last element of `u` occurs somewhere in a permutation `v` of `u`. */
  lemma FindLast<T>(u: seq<T>, v: seq<T>) returns (i: nat)
    requires multiset(u) == multiset(v) && u != []
    ensures i < |v| && v[i] == u[|u| - 1]
  {
    assert u[|u| - 1] in multiset(v) by {
      assert u[|u| - 1] in u;
    }
    i :| 0 <= i < |v| && v[i] == u[|u| - 1];
  }

  /** The word at `i` can be folded in last. */
  lemma XorAllAt(v: seq<bv32>, i: nat)
    requires i < |v|
    ensures XorAll(v) == XorAll(v[..i] + v[i + 1..]) ^ v[i]
  {
    var a, w, b := v[..i], v[i], v[i + 1..];
    assert v == a + [w] + b;
    XorAllWithout(a, w, b);
  }

  /** Folding in the same last word after equal folds gives equal folds. */
  lemma XorAllRemoved(u: seq<bv32>, v: seq<bv32>, i: nat)
    requires u != [] && i < |v| && v[i] == u[|u| - 1]
    requires XorAll(u[..|u| - 1]) == XorAll(v[..i] + v[i + 1..])
    ensures XorAll(u) == XorAll(v)
  {
    XorAllAt(v, i);
  }

  lemma {:induction false} XorAllPermutation(u: seq<bv32>, v: seq<bv32>)
    requires multiset(u) == multiset(v)
    ensures XorAll(u) == XorAll(v)
    decreases |u|
  {
    if u == [] {
      assert |v| == |multiset(v)| == 0;
      assert v == [];
    } else {
      var i := FindLast(u, v);
      MultisetWithout(u, v, i);
      XorAllPermutation(u[..|u| - 1], v[..i] + v[i + 1..]);
      XorAllRemoved(u, v, i);
    }
  }

  lemma {:induction false} CoveredPermutation(f: Entries<bool>, g: Entries<bool>, table: map<string, bv32>)
    requires multiset(f) == multiset(g)
    requires Covered(f, table)
    ensures Covered(g, table)
  {
    forall i | 0 <= i < |g| && Excludes(g[i])
      ensures g[i].0 in table
    {
      assert g[i] in multiset(f);
      var j :| 0 <= j < |f| && f[j] == g[i];
    }
  }

  lemma {:induction false} BitsWithout(a: Entries<bool>, e: (string, bool), b: Entries<bool>, table: map<string, bv32>)
    requires Covered(a + [e] + b, table)
    ensures Excludes(e) ==> e.0 in table
    ensures Covered(a + b, table)
    ensures multiset(Bits(a + [e] + b, table)) == multiset(Bits(a + b, table)) + multiset{Bit(e, table)}
  {
    BitsAppend(a + [e], b, table);
    BitsAppend(a, [e], table);
    assert [e][0] == e;
    assert Bits([e], table) == [Bit(e, table)];
    CoveredJoin(a, b, table);
    BitsAppend(a, b, table);
  }

  /** Taking the last entry out of the contributions. */
  lemma BitsWithoutLast(f: Entries<bool>, table: map<string, bv32>)
    requires f != [] && Covered(f, table)
    ensures Covered(f[..|f| - 1], table)
    ensures multiset(Bits(f, table)) == multiset(Bits(f[..|f| - 1], table)) + multiset{Bit(f[|f| - 1], table)}
  {
    var init := f[..|f| - 1];
    assert f == init + [f[|f| - 1]] + [];
    assert init + [] == init;
    BitsWithout(init, f[|f| - 1], [], table);
  }

  /** Taking the entry at `i` out of the contributions. */
  lemma BitsWithoutAt(g: Entries<bool>, i: nat, table: map<string, bv32>)
    requires i < |g| && Covered(g, table)
    ensures Covered(g[..i] + g[i + 1..], table)
    ensures multiset(Bits(g, table)) == multiset(Bits(g[..i] + g[i + 1..], table)) + multiset{Bit(g[i], table)}
  {
    assert g == g[..i] + [g[i]] + g[i + 1..];
    BitsWithout(g[..i], g[i], g[i + 1..], table);
  }

  lemma {:induction false} BitsPermutation(f: Entries<bool>, g: Entries<bool>, table: map<string, bv32>)
    requires multiset(f) == multiset(g)
    requires Covered(f, table)
    ensures Covered(g, table)
    ensures multiset(Bits(f, table)) == multiset(Bits(g, table))
    decreases |f|
  {
    CoveredPermutation(f, g, table);
    if f == [] {
      assert |g| == |multiset(g)| == 0;
      assert g == [];
    } else {
      var i := FindLast(f, g);
      MultisetWithout(f, g, i);
      BitsWithoutLast(f, table);
      BitsWithoutAt(g, i, table);
      BitsPermutation(f[..|f| - 1], g[..i] + g[i + 1..], table);
    }
  }

  /** The mask does not depend on the order in which the entries are enumerated. */
  lemma MaskPermutation(f: Entries<bool>, g: Entries<bool>, table: map<string, bv32>)
    requires multiset(f) == multiset(g)
    requires Covered(f, table)
    ensures Covered(g, table)
    ensures Mask(f, table) == Mask(g, table)
  {
    BitsPermutation(f, g, table);
    XorAllPermutation(Bits(f, table), Bits(g, table));
  }

  /**
   * Switching one flag from false to true flips exactly its bits, so
   * switching it back restores the mask.
   */
  lemma {:induction false} MaskFlip(a: Entries<bool>, k: string, b: Entries<bool>, table: map<string, bv32>)
    requires k != SelectAll && k != Normal && k in table
    requires Covered(a + b, table)
    ensures Covered(a + [(k, false)] + b, table) && Covered(a + [(k, true)] + b, table)
    ensures Mask(a + [(k, true)] + b, table) == Mask(a + [(k, false)] + b, table) ^ table[k]
  {
    CoveredParts(a, b, table);
    CoveredJoin(a, [(k, true)], table);
    CoveredJoin(a + [(k, true)], b, table);
    MaskIgnores(a, (k, false), b, table);
    MaskWithout(a, (k, true), b, table);
  }
}
