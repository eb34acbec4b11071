/** An insertion-ordered dictionary with string keys, with the semantics of a
    Python `dict`: assigning to a present key keeps its position, assigning to
    a new key appends it, and `{**a, **b}` lists a's keys first. */
module OrderedTable {
  import opened Wrappers

  type Table<V> = seq<(string, V)>

  function Keys<V>(t: Table<V>): (ks: seq<string>)
    ensures |ks| == |t|
    ensures forall i :: 0 <= i < |t| ==> ks[i] == t[i].0
  {
    if t == [] then [] else [t[0].0] + Keys(t[1..])
  }

  /** No key occurs twice (every Python dict has this property). */
  ghost predicate UniqueKeys<V>(t: Table<V>)
  {
    forall i, j :: 0 <= i < j < |t| ==> t[i].0 != t[j].0
  }

  /** The elements of `s` that do not occur in `ex`, in their order in `s`. */
  function Without(s: seq<string>, ex: seq<string>): (r: seq<string>)
    ensures forall x :: x in r <==> x in s && x !in ex
  {
    if s == [] then []
    else if s[0] in ex then Without(s[1..], ex)
    else [s[0]] + Without(s[1..], ex)
  }

  /** `d[k]` when `k in d`. */
  function Lookup<V>(t: Table<V>, k: string): (r: Option<V>)
    ensures r.None? <==> k !in Keys(t)
  {
    if t == [] then None
    else if t[0].0 == k then Some(t[0].1)
    else Lookup(t[1..], k)
  }

  /** `d[k] = v`: overwrites in place when `k` is present, appends otherwise. */
  function Insert<V>(t: Table<V>, k: string, v: V): (r: Table<V>)
    ensures Lookup(r, k) == Some(v)
    ensures forall k' :: k' != k ==> Lookup(r, k') == Lookup(t, k')
  {
    if t == [] then [(k, v)]
    else if t[0].0 == k then [(k, v)] + t[1..]
    else [t[0]] + Insert(t[1..], k, v)
  }

  /** An overwritten key keeps its position; a new key goes at the end. */
  lemma {:induction false} InsertKeys<V>(t: Table<V>, k: string, v: V)
    ensures Keys(Insert(t, k, v)) == if k in Keys(t) then Keys(t) else Keys(t) + [k]
  {
    if t != [] && t[0].0 != k {
      var rest := Insert(t[1..], k, v);
      InsertKeys(t[1..], k, v);
      KeysTail(t);
      KeysTail([t[0]] + rest);
      assert ([t[0]] + rest)[1..] == rest;
      assert k in Keys(t) <==> k in Keys(t[1..]);
      if k !in Keys(t) {
        ConcatAssoc([t[0].0], Keys(t[1..]), [k]);
      }
    }
  }

  lemma InsertUnique<V>(t: Table<V>, k: string, v: V)
    requires UniqueKeys(t)
    ensures UniqueKeys(Insert(t, k, v))
  {
    var r := Insert(t, k, v);
    InsertKeys(t, k, v);
    assert Keys(r) == if k in Keys(t) then Keys(t) else Keys(t) + [k];
    forall i, j | 0 <= i < j < |r|
      ensures r[i].0 != r[j].0
    {
      assert Keys(r)[i] == r[i].0 && Keys(r)[j] == r[j].0;
    }
  }

  /** A prefix is the same as the leading slice of its own length. */
  lemma PrefixAsTake<T>(p: seq<T>, s: seq<T>)
    ensures p <= s <==> |p| <= |s| && s[..|p|] == p
  {
    if |p| <= |s| && s[..|p|] == p {
      assert forall i :: 0 <= i < |p| ==> p[i] == s[..|p|][i];
    }
  }

  /** A sequence is its prefix followed by the rest. */
  lemma PrefixSplit<T>(p: seq<T>, s: seq<T>)
    requires p <= s
    ensures s == p + s[|p|..]
  {
    PrefixAsTake(p, s);
    assert s == s[..|p|] + s[|p|..];
  }

  /** Assignment never removes or reorders leading keys. */
  lemma InsertKeepsPrefix<V>(t: Table<V>, k: string, v: V, p: seq<string>)
    requires p <= Keys(t)
    ensures p <= Keys(Insert(t, k, v))
  {
    InsertKeys(t, k, v);
  }

  /** `{**a, **b}`: the entries of `b`, in order, assigned over `a`. */
  function Merge<V>(a: Table<V>, b: Table<V>): (r: Table<V>)
    decreases |b|
  {
    if b == [] then a else Merge(Insert(a, b[0].0, b[0].1), b[1..])
  }

  lemma KeysTail<V>(t: Table<V>)
    requires t != []
    ensures Keys(t) == [t[0].0] + Keys(t[1..])
  {
  }

  lemma ConcatAssoc<T>(x: seq<T>, y: seq<T>, z: seq<T>)
    ensures (x + y) + z == x + (y + z)
  {
  }

  lemma {:induction false} WithoutIgnoresAbsent(s: seq<string>, ex: seq<string>, x: string)
    requires x !in s
    ensures Without(s, ex + [x]) == Without(s, ex)
  {
    if s != [] {
      WithoutIgnoresAbsent(s[1..], ex, x);
    }
  }

  lemma {:induction false} WithoutNothing(s: seq<string>)
    ensures Without(s, []) == s
  {
    if s != [] {
      WithoutNothing(s[1..]);
    }
  }

  lemma {:induction false} WithoutConcat(s1: seq<string>, s2: seq<string>, ex: seq<string>)
    ensures Without(s1 + s2, ex) == Without(s1, ex) + Without(s2, ex)
  {
    if s1 != [] {
      var s := s1 + s2;
      assert s != [] && s[0] == s1[0] && s[1..] == s1[1..] + s2;
      WithoutConcat(s1[1..], s2, ex);
      var w1, w2 := Without(s1[1..], ex), Without(s2, ex);
      if s1[0] in ex {
        assert Without(s, ex) == Without(s1[1..] + s2, ex);
      } else {
        assert Without(s, ex) == [s1[0]] + (w1 + w2);
        ConcatAssoc([s1[0]], w1, w2);
      }
    } else {
      assert s1 + s2 == s2;
    }
  }

  /** Filtering a duplicate-free sequence leaves it duplicate-free. */
  lemma {:induction false} WithoutUnique(s: seq<string>, ex: seq<string>, i: nat, j: nat)
    requires forall a, b :: 0 <= a < b < |s| ==> s[a] != s[b]
    requires i < j < |Without(s, ex)|
    ensures Without(s, ex)[i] != Without(s, ex)[j]
  {
    var w := Without(s[1..], ex);
    if s[0] in ex {
      WithoutUnique(s[1..], ex, i, j);
    } else if i == 0 {
      assert Without(s, ex)[j] == w[j - 1] && w[j - 1] in w;
    } else {
      WithoutUnique(s[1..], ex, i - 1, j - 1);
    }
  }

  lemma {:induction false} WithoutDisjoint(s: seq<string>, ex: seq<string>)
    requires forall x :: x in s ==> x !in ex
    ensures Without(s, ex) == s
  {
    if s != [] {
      WithoutDisjoint(s[1..], ex);
    }
  }

  lemma {:induction false} WithoutAllExcluded(s: seq<string>, ex: seq<string>)
    requires forall x :: x in s ==> x in ex
    ensures Without(s, ex) == []
  {
    if s != [] {
      WithoutAllExcluded(s[1..], ex);
    }
  }

  /** When a duplicate-free table's keys are `p` followed by `rest`, no
      key of `rest` is in `p`. */
  lemma SplitDisjoint<V>(t: Table<V>, p: seq<string>, rest: seq<string>)
    requires UniqueKeys(t)
    requires Keys(t) == p + rest
    ensures forall x :: x in rest ==> x !in p
  {
    var n := |p|;
    forall j, i | 0 <= j < |rest| && 0 <= i < n
      ensures p[i] != rest[j]
    {
      assert p[i] == t[i].0 && rest[j] == t[n + j].0;
    }
  }

  /** When a duplicate-free table's keys are `p` followed by `rest`,
      removing `p` from either leaves exactly `rest`. */
  lemma WithoutSplit<V>(t: Table<V>, p: seq<string>, rest: seq<string>)
    requires UniqueKeys(t)
    requires Keys(t) == p + rest
    ensures Without(Keys(t), p) == rest
    ensures Without(rest, p) == rest
  {
    SplitDisjoint(t, p, rest);
    WithoutConcat(p, rest, p);
    WithoutAllExcluded(p, p);
    WithoutDisjoint(rest, p);
  }

  /** Putting the leading keys `p` back in front of what is left after
      removing them (and removing them once more) restores the key list. */
  lemma RestorePrefix<V>(t: Table<V>, p: seq<string>, s: seq<string>)
    requires UniqueKeys(t)
    requires p <= Keys(t)
    requires s == Without(Keys(t), p)
    ensures p + Without(s, p) == Keys(t)
  {
    var rest := Keys(t)[|p|..];
    PrefixSplit(p, Keys(t));
    WithoutSplit(t, p, rest);
  }

  /** A key of `b` takes `b`'s value, any other key keeps `a`'s. */
  lemma {:induction false} MergeLookup<V>(a: Table<V>, b: Table<V>, k: string)
    requires UniqueKeys(b)
    ensures Lookup(Merge(a, b), k) == if k in Keys(b) then Lookup(b, k) else Lookup(a, k)
    decreases |b|
  {
    if b != [] {
      var a' := Insert(a, b[0].0, b[0].1);
      var b' := b[1..];
      KeysTail(b);
      assert UniqueKeys(b');
      MergeLookup(a', b', k);
    }
  }

  /** The merge lists `a`'s keys first, then the keys new in `b` in `b`'s order. */
  lemma {:induction false} MergeKeys<V>(a: Table<V>, b: Table<V>)
    requires UniqueKeys(b)
    ensures Keys(Merge(a, b)) == Keys(a) + Without(Keys(b), Keys(a))
    decreases |b|
  {
    if b != [] {
      var k0 := b[0].0;
      var a' := Insert(a, k0, b[0].1);
      var b' := b[1..];
      KeysTail(b);
      assert UniqueKeys(b');
      assert k0 !in Keys(b');
      MergeKeys(a', b');
      InsertKeys(a, k0, b[0].1);
      var kb := Keys(b);
      assert kb[0] == k0 && kb[1..] == Keys(b');
      assert Merge(a, b) == Merge(a', b');
      if k0 in Keys(a) {
        assert Without(kb, Keys(a)) == Without(Keys(b'), Keys(a));
      } else {
        WithoutIgnoresAbsent(Keys(b'), Keys(a), k0);
        assert Without(kb, Keys(a)) == [k0] + Without(Keys(b'), Keys(a));
        assert Keys(a') == Keys(a) + [k0];
        var w := Without(Keys(b'), Keys(a));
        assert Without(Keys(b'), Keys(a')) == w;
        ConcatAssoc(Keys(a), [k0], w);
      }
    } else {
      assert Without(Keys(b), Keys(a)) == [];
    }
  }

  lemma {:induction false} MergeUnique<V>(a: Table<V>, b: Table<V>)
    requires UniqueKeys(a)
    ensures UniqueKeys(Merge(a, b))
    decreases |b|
  {
    if b != [] {
      InsertUnique(a, b[0].0, b[0].1);
      MergeUnique(Insert(a, b[0].0, b[0].1), b[1..]);
    }
  }

  /** Merging never removes or reorders the keys already present. */
  lemma {:induction false} MergeKeepsPrefix<V>(a: Table<V>, b: Table<V>)
    ensures Keys(a) <= Keys(Merge(a, b))
    decreases |b|
  {
    if b != [] {
      InsertKeys(a, b[0].0, b[0].1);
      MergeKeepsPrefix(Insert(a, b[0].0, b[0].1), b[1..]);
    }
  }

  /** `{k: f(v) for k, v in d.items() if k not in ex}`: the keys outside
      `ex`, in order. */
  function Project<V, W>(t: Table<V>, ex: seq<string>, f: V -> W): (r: Table<W>)
    ensures Keys(r) == Without(Keys(t), ex)
  {
    if t == [] then []
    else
      var rest := Project(t[1..], ex, f);
      if t[0].0 in ex then rest
      else
        KeysTail([(t[0].0, f(t[0].1))] + rest);
        [(t[0].0, f(t[0].1))] + rest
  }

  /** A projected key holds the mapped value; an excluded or absent key is absent. */
  lemma {:induction false} ProjectLookup<V, W>(t: Table<V>, ex: seq<string>, f: V -> W, k: string)
    ensures Lookup(Project(t, ex, f), k) ==
      if k in ex || Lookup(t, k).None? then None else Some(f(Lookup(t, k).value))
  {
    if t != [] {
      ProjectLookup(t[1..], ex, f, k);
    }
  }

  lemma ProjectUnique<V, W>(t: Table<V>, ex: seq<string>, f: V -> W)
    requires UniqueKeys(t)
    ensures UniqueKeys(Project(t, ex, f))
  {
    var r := Project(t, ex, f);
    forall i, j | 0 <= i < j < |r|
      ensures r[i].0 != r[j].0
    {
      assert Keys(r)[i] == r[i].0 && Keys(r)[j] == r[j].0;
      WithoutUnique(Keys(t), ex, i, j);
    }
  }

  /** With nothing excluded, the projection maps every entry in place. */
  lemma {:induction false} ProjectAll<V, W>(t: Table<V>, f: V -> W)
    ensures |Project(t, [], f)| == |t|
    ensures forall i :: 0 <= i < |t| ==> Project(t, [], f)[i] == (t[i].0, f(t[i].1))
  {
    if t != [] {
      ProjectAll(t[1..], f);
    }
  }
}
