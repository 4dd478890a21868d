/** Equality of values in filters, against what the values mean: dicts as maps, bools as numbers. */
module ValueEquality {
  import opened Results
  import opened Kinds
  import opened FilterEval

  /** A value without the order of its tags. */
  datatype Meaning =
    | Plain(n: Num)                        // a plain number, or a bool as 0 or 1
    | Kept(v: Val)
    | Items(items: seq<Meaning>)
    | Names(tags: map<string, Meaning>)
    | Table(meta: map<string, Meaning>, cols: seq<(string, map<string, Meaning>)>, rows: seq<map<string, Meaning>>)

  ghost function Means(v: Val): Meaning
    decreases v, 1
  {
    match v
    case Float(f) => Plain(f)
    case Bool(b) => Plain(Fin(if b then 1 else 0))
    case List(items) => Items(seq(|items|, (i: int) requires 0 <= i < |items| => Means(items[i])))
    case Dict(tags) => Names(TagsMean(tags))
    case GridVal(g) =>
      Table(TagsMean(g.meta),
            seq(|g.cols|, (i: int) requires 0 <= i < |g.cols| => (g.cols[i].name, TagsMean(g.cols[i].meta))),
            seq(|g.rows|, (i: int) requires 0 <= i < |g.rows| => TagsMean(g.rows[i].tags)))
    case _ => Kept(v)
  }

  ghost function TagsMean(tags: seq<Tag>): map<string, Meaning>
    decreases tags, 0
  {
    if tags == [] then map[]
    else
      var last := tags[|tags| - 1];
      assert last in tags;
      TagsMean(tags[..|tags| - 1])[last.name := Means(last.val)]
  }

  /** Tag names are unique in every dict, and no plain number is NaN. */
  ghost predicate Proper(v: Val)
    decreases v, 1
  {
    match v
    case Float(f) => f != NaN
    case List(items) => forall i :: 0 <= i < |items| ==> Proper(items[i])
    case Dict(tags) => ProperTags(tags)
    case GridVal(g) =>
      && ProperTags(g.meta)
      && (forall i :: 0 <= i < |g.cols| ==> ProperTags(g.cols[i].meta))
      && (forall i :: 0 <= i < |g.rows| ==> ProperTags(g.rows[i].tags))
    case _ => true
  }

  ghost predicate ProperTags(tags: seq<Tag>)
    decreases tags, 0
  {
    DistinctNames(tags) && forall i :: 0 <= i < |tags| ==> Proper(tags[i].val)
  }

  ghost predicate Holds(m: map<string, Meaning>, tags: seq<Tag>) {
    && |m| == |tags|
    && (forall i :: 0 <= i < |tags| ==> tags[i].name in m && m[tags[i].name] == Means(tags[i].val))
    && (forall k :: k in m ==> exists i :: 0 <= i < |tags| && tags[i].name == k)
  }

  lemma HoldsMore(m: map<string, Meaning>, tags: seq<Tag>, t: Tag)
    requires Holds(m, tags) && DistinctNames(tags + [t])
    ensures Holds(m[t.name := Means(t.val)], tags + [t])
  {
    hide Means;
    var all, next := tags + [t], m[t.name := Means(t.val)];
    assert forall i :: 0 <= i < |tags| ==> all[i] == tags[i];
    assert all[|tags|] == t;
    forall k | k in m
      ensures k != t.name
    {
      var i :| 0 <= i < |tags| && tags[i].name == k;
      assert all[i].name == k;
    }
    forall k | k in next
      ensures exists i :: 0 <= i < |all| && all[i].name == k
    {
      if k != t.name {
        var i :| 0 <= i < |tags| && tags[i].name == k;
        assert all[i].name == k;
      }
    }
  }

  /** The map of unique tags has each of them and nothing else. */
  lemma {:induction false} TagsMeanHolds(tags: seq<Tag>)
    requires DistinctNames(tags)
    ensures Holds(TagsMean(tags), tags)
    decreases |tags|
  {
    hide Means, Holds;
    if tags == [] {
      NothingHolds();
    } else {
      var front, last := tags[..|tags| - 1], tags[|tags| - 1];
      assert tags == front + [last];
      TagsMeanHolds(front);
      HoldsMore(TagsMean(front), front, last);
    }
  }

  lemma NothingHolds()
    ensures Holds(map[], [])
  {
  }

  lemma SameKeys<V>(a: map<string, V>, b: map<string, V>)
    requires |a| == |b| && forall k :: k in a ==> k in b
    ensures a.Keys == b.Keys
  {
    assert |a.Keys| == |a| && |b.Keys| == |b|;
    var more := b.Keys - a.Keys;
    assert b.Keys == a.Keys + more && a.Keys !! more;
    assert |b.Keys| == |a.Keys| + |more|;
  }

  /** Equality of the values agrees with what they mean. */
  ghost predicate Agree(a: seq<Tag>, b: seq<Tag>) {
    forall i, j :: 0 <= i < |a| && 0 <= j < |b| ==> (PyEq(a[i].val, b[j].val) <==> Means(a[i].val) == Means(b[j].val))
  }

  lemma EqualTagsMean(a: seq<Tag>, b: seq<Tag>, m: map<string, Meaning>, n: map<string, Meaning>)
    requires TagsEq(a, b) && Agree(a, b) && Holds(m, a) && Holds(n, b)
    ensures m == n
  {
    hide PyEq, Means;
    forall k | k in m
      ensures k in n && m[k] == n[k]
    {
      var i :| 0 <= i < |a| && a[i].name == k;
      var j := Find(b, a[i].name).value;
      assert PyEq(a[i].val, b[j].val);
    }
    SameKeys(m, n);
    assert m == n;
  }

  lemma MeantTagsEqual(a: seq<Tag>, b: seq<Tag>, m: map<string, Meaning>)
    requires Agree(a, b) && Holds(m, a) && Holds(m, b)
    ensures TagsEq(a, b)
  {
    hide PyEq, Means;
    forall i | 0 <= i < |a|
      ensures Find(b, a[i].name).Some? && PyEq(a[i].val, b[Find(b, a[i].name).value].val)
    {
      var k :| 0 <= k < |b| && b[k].name == a[i].name;
      var j := Find(b, a[i].name).value;
      assert m[b[j].name] == Means(b[j].val);
    }
  }

  lemma {:induction false} TagsEqualExactly(a: seq<Tag>, b: seq<Tag>)
    requires ProperTags(a) && ProperTags(b)
    ensures TagsEq(a, b) <==> TagsMean(a) == TagsMean(b)
    decreases a, 0
  {
    hide PyEq, Means, Proper, TagsEq, TagsMean, Holds;
    TagsMeanHolds(a);
    TagsMeanHolds(b);
    forall i, j | 0 <= i < |a| && 0 <= j < |b|
      ensures PyEq(a[i].val, b[j].val) <==> Means(a[i].val) == Means(b[j].val)
    {
      EqualExactly(a[i].val, b[j].val);
    }
    if TagsEq(a, b) {
      EqualTagsMean(a, b, TagsMean(a), TagsMean(b));
    }
    if TagsMean(a) == TagsMean(b) {
      MeantTagsEqual(a, b, TagsMean(a));
    }
  }

  /** Two values compare equal exactly when they mean the same: lists item by item, dicts whatever the order of their tags, a
      bool as the plain number 0 or 1, and everything else only itself. */
  lemma {:induction false} EqualExactly(a: Val, b: Val)
    requires Proper(a) && Proper(b)
    ensures PyEq(a, b) <==> Means(a) == Means(b)
    decreases a, 1
  {
    hide PyEq, Means, Proper, TagsEq, TagsMean;
    if a.List? && b.List? {
      ListsEqual(a, b);
    } else if a.Dict? && b.Dict? {
      DictsEqual(a, b);
    } else if a.GridVal? && b.GridVal? {
      GridsEqual(a, b);
    } else {
      OthersEqual(a, b);
    }
  }

  lemma OthersEqual(a: Val, b: Val)
    requires Proper(a) && Proper(b) && !(a.List? && b.List?) && !(a.Dict? && b.Dict?) && !(a.GridVal? && b.GridVal?)
    ensures PyEq(a, b) <==> Means(a) == Means(b)
  {
    hide TagsEq, TagsMean, ProperTags;
  }

  lemma {:induction false} DictsEqual(a: Val, b: Val)
    requires a.Dict? && b.Dict? && Proper(a) && Proper(b)
    ensures PyEq(a, b) <==> Means(a) == Means(b)
    decreases a, 0
  {
    hide TagsEq, TagsMean, ProperTags;
    TagsEqualExactly(a.tags, b.tags);
  }

  lemma {:induction false} ListsEqual(a: Val, b: Val)
    requires a.List? && b.List? && Proper(a) && Proper(b)
    ensures PyEq(a, b) <==> Means(a) == Means(b)
    decreases a, 0
  {
    hide Means, TagsEq;
    forall i | 0 <= i < |a.items| && i < |b.items|
      ensures PyEq(a.items[i], b.items[i]) <==> Means(a.items[i]) == Means(b.items[i])
    {
      hide PyEq;
      EqualExactly(a.items[i], b.items[i]);
    }
    ListMeans(a.items, b.items);
  }

  lemma {:induction false} GridsEqual(a: Val, b: Val)
    requires a.GridVal? && b.GridVal? && Proper(a) && Proper(b)
    ensures PyEq(a, b) <==> Means(a) == Means(b)
    decreases a, 0
  {
    hide Means, TagsMean, TagsEq, ProperTags;
    var g, h := a.grid, b.grid;
    TagsEqualExactly(g.meta, h.meta);
    forall i | 0 <= i < |g.cols| && i < |h.cols|
      ensures TagsEq(g.cols[i].meta, h.cols[i].meta) <==> TagsMean(g.cols[i].meta) == TagsMean(h.cols[i].meta)
    {
      TagsEqualExactly(g.cols[i].meta, h.cols[i].meta);
    }
    forall i | 0 <= i < |g.rows| && i < |h.rows|
      ensures TagsEq(g.rows[i].tags, h.rows[i].tags) <==> TagsMean(g.rows[i].tags) == TagsMean(h.rows[i].tags)
    {
      TagsEqualExactly(g.rows[i].tags, h.rows[i].tags);
    }
    TableMeans(g, h);
  }

  lemma ListMeans(a: seq<Val>, b: seq<Val>)
    ensures Means(List(a)) == Means(List(b)) <==> |a| == |b| && forall i :: 0 <= i < |a| ==> Means(a[i]) == Means(b[i])
  {
    var m, n := Means(List(a)).items, Means(List(b)).items;
    assert forall i :: 0 <= i < |a| ==> m[i] == Means(a[i]);
    assert forall i :: 0 <= i < |b| ==> n[i] == Means(b[i]);
  }

  lemma TableMeans(g: Grid, h: Grid)
    ensures Means(GridVal(g)) == Means(GridVal(h)) <==>
              && TagsMean(g.meta) == TagsMean(h.meta)
              && |g.cols| == |h.cols|
              && (forall i :: 0 <= i < |g.cols| ==>
                    g.cols[i].name == h.cols[i].name && TagsMean(g.cols[i].meta) == TagsMean(h.cols[i].meta))
              && |g.rows| == |h.rows|
              && (forall i :: 0 <= i < |g.rows| ==> TagsMean(g.rows[i].tags) == TagsMean(h.rows[i].tags))
  {
    hide TagsMean;
    var m, n := Means(GridVal(g)), Means(GridVal(h));
    assert forall i :: 0 <= i < |g.cols| ==> m.cols[i] == (g.cols[i].name, TagsMean(g.cols[i].meta));
    assert forall i :: 0 <= i < |h.cols| ==> n.cols[i] == (h.cols[i].name, TagsMean(h.cols[i].meta));
    assert forall i :: 0 <= i < |g.rows| ==> m.rows[i] == TagsMean(g.rows[i].tags);
    assert forall i :: 0 <= i < |h.rows| ==> n.rows[i] == TagsMean(h.rows[i].tags);
  }
}
