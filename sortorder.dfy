/** Sort-state decoding: the order expression of the grid becomes, for
    each field it names, the direction asked for and the field's 1-based
    precedence rank. */
module SortOrder {

  /** A (field, direction) pair of the order expression. */
  type Pair = (string, string)

  /** The decoded state of one field. */
  datatype Sort = Sort(dir: string, rank: nat)

  function Keys(list: seq<Pair>): (ks: seq<string>)
    ensures |ks| == |list|
    ensures forall i :: 0 <= i < |list| ==> ks[i] == list[i].0
  {
    seq(|list|, i requires 0 <= i < |list| => list[i].0)
  }

  predicate DistinctKeys(ks: seq<string>) {
    forall i, j :: 0 <= i < j < |ks| ==> ks[i] != ks[j]
  }

  /** No field occurs twice. */
  predicate Distinct(list: seq<Pair>) {
    DistinctKeys(Keys(list))
  }

  /** The position of the first occurrence of `k`. */
  function IndexOf(ks: seq<string>, k: string): (i: nat)
    requires k in ks
    ensures i < |ks| && ks[i] == k && k !in ks[..i]
    decreases |ks|
  {
    if ks[0] == k then 0 else
      var j := IndexOf(ks[1..], k);
      assert ks[..j + 1] == [ks[0]] + ks[1..][..j];
      1 + j
  }

  /** The value stored under `k` in an ordered array. */
  function ValueOf(list: seq<Pair>, k: string): string
    requires k in Keys(list)
  {
    list[IndexOf(Keys(list), k)].1
  }

  // ---------------------------------------------------------------------
  // The array PHP's parse_str builds

  /** `$array[$k] = $v` on PHP's ordered array: an existing key keeps its
      place and takes the new value; a new key goes last. */
  function Put(list: seq<Pair>, k: string, v: string): seq<Pair>
    decreases |list|
  {
    if list == [] then [(k, v)]
    else if list[0].0 == k then [(k, v)] + list[1..]
    else [list[0]] + Put(list[1..], k, v)
  }

  /** The array the expression's pairs make, assigned left to right. */
  function Parse(order: seq<Pair>): seq<Pair>
    decreases |order|
  {
    if order == [] then []
    else
      var last := order[|order| - 1];
      Put(Parse(order[..|order| - 1]), last.0, last.1)
  }

  /** The loop `$list[$field] = array($dir, $i++)` over that array. */
  function Ranks(list: seq<Pair>): map<string, Sort>
    decreases |list|
  {
    if list == [] then map[]
    else
      var last := list[|list| - 1];
      Ranks(list[..|list| - 1])[last.0 := Sort(last.1, |list|)]
  }

  /** The decoded sort state of an order expression. */
  function SortState(order: seq<Pair>): map<string, Sort> {
    Ranks(Parse(order))
  }

  /** Decodes the order expression as the header row does: the pairs are
      assigned into an array, then every entry is replaced with its
      direction and a counter starting at 1. */
  method DecodeOrder(order: seq<Pair>) returns (list: map<string, Sort>)
    ensures list == SortState(order)
  {
    var parsed := Parse(order);
    list := map[];
    var i := 1;
    while i <= |parsed|
      invariant 1 <= i <= |parsed| + 1
      invariant list == Ranks(parsed[..i - 1])
    {
      var (field, dir) := parsed[i - 1];
      assert parsed[..i][..i - 1] == parsed[..i - 1];
      list := list[field := Sort(dir, i)];
      i := i + 1;
    }
    assert parsed[..|parsed|] == parsed;
  }

  // ---------------------------------------------------------------------
  // Reference definitions of what the decoding should find

  /** The fields of the expression in order of first occurrence. */
  function FirstFields(order: seq<Pair>): seq<string>
    decreases |order|
  {
    if order == [] then []
    else
      var init := FirstFields(order[..|order| - 1]);
      var f := order[|order| - 1].0;
      if f in init then init else init + [f]
  }

  /** The direction given last for `f`. */
  function LastDir(order: seq<Pair>, f: string): string
    requires f in Keys(order)
    decreases |order|
  {
    var last := order[|order| - 1];
    if last.0 == f then last.1
    else
      assert f in Keys(order[..|order| - 1]) by {
        var i :| 0 <= i < |order| && order[i].0 == f;
        assert i < |order| - 1 && order[..|order| - 1][i] == order[i];
      }
      LastDir(order[..|order| - 1], f)
  }

  /** A field is decoded exactly when the expression names it; its
      direction is the one given last for it and its rank is 1 plus the
      number of distinct fields first named before it. */
  lemma SortStateSpec(order: seq<Pair>, f: string)
    ensures f in SortState(order) <==> f in Keys(order)
    ensures f in Keys(order) ==>
      (f in FirstFields(order) &&
       SortState(order)[f] == Sort(LastDir(order, f), 1 + IndexOf(FirstFields(order), f)))
  {
    var p := Parse(order);
    ParseKeys(order);
    ParseDistinct(order);
    FirstFieldsKeys(order, f);
    RanksKeys(p, f);
    if f in Keys(order) {
      RanksAt(p, f);
      ParseValue(order, f);
    }
  }

  /** As many fields are decoded as the expression names distinct fields;
      so the rank badge shows exactly when two or more are named. */
  lemma SortStateCount(order: seq<Pair>)
    ensures |SortState(order)| == |FirstFields(order)|
  {
    ParseKeys(order);
    ParseDistinct(order);
    RanksSize(Parse(order));
  }

  /** When no field is repeated, the field of the i-th pair is decoded with
      that pair's direction and rank i + 1. */
  lemma DistinctOrderRanks(order: seq<Pair>, i: nat)
    requires Distinct(order) && i < |order|
    ensures |SortState(order)| == |order|
    ensures order[i].0 in SortState(order)
    ensures SortState(order)[order[i].0] == Sort(order[i].1, i + 1)
  {
    ParseOfDistinct(order);
    RanksSize(order);
    RanksKeys(order, order[i].0);
    RanksAt(order, order[i].0);
    DistinctIndex(order, i);
  }

  // ---------------------------------------------------------------------
  // Proofs

  lemma KeysCons(p: Pair, l: seq<Pair>)
    ensures Keys([p] + l) == [p.0] + Keys(l)
  {
  }

  lemma KeysSnoc(l: seq<Pair>, p: Pair)
    ensures Keys(l + [p]) == Keys(l) + [p.0]
  {
  }

  lemma DistinctSnoc(ks: seq<string>, k: string)
    requires DistinctKeys(ks) && k !in ks
    ensures DistinctKeys(ks + [k])
  {
  }

  lemma DistinctIndex(list: seq<Pair>, i: nat)
    requires Distinct(list) && i < |list|
    ensures list[i].0 in Keys(list) && IndexOf(Keys(list), list[i].0) == i
  {
    var j := IndexOf(Keys(list), list[i].0);
  }

  lemma {:induction false} IndexOfCons(h: string, ks: seq<string>, k: string)
    requires k != h && k in ks
    ensures k in [h] + ks && IndexOf([h] + ks, k) == 1 + IndexOf(ks, k)
  {
    assert ([h] + ks)[1..] == ks;
  }

  lemma {:induction false} IndexOfPrefix(ks: seq<string>, k: string, x: string)
    requires k in ks
    ensures k in ks + [x] && IndexOf(ks + [x], k) == IndexOf(ks, k)
    decreases |ks|
  {
    if ks[0] != k {
      assert (ks + [x])[1..] == ks[1..] + [x];
      IndexOfPrefix(ks[1..], k, x);
    }
  }

  lemma {:induction false} IndexOfLast(ks: seq<string>, k: string)
    requires k !in ks
    ensures k in ks + [k] && IndexOf(ks + [k], k) == |ks|
    decreases |ks|
  {
    if ks != [] {
      assert (ks + [k])[1..] == ks[1..] + [k];
      IndexOfLast(ks[1..], k);
    }
  }

  lemma {:induction false} PutNew(l: seq<Pair>, k: string, v: string)
    requires k !in Keys(l)
    ensures Put(l, k, v) == l + [(k, v)]
    decreases |l|
  {
    if l != [] {
      KeysCons(l[0], l[1..]);
      assert [l[0]] + l[1..] == l;
      PutNew(l[1..], k, v);
      assert [l[0]] + (l[1..] + [(k, v)]) == l + [(k, v)];
    }
  }

  /** The keys after one assignment. */
  lemma {:induction false} PutKeys(l: seq<Pair>, k: string, v: string)
    ensures Keys(Put(l, k, v)) == if k in Keys(l) then Keys(l) else Keys(l) + [k]
    decreases |l|
  {
    if l != [] {
      KeysCons(l[0], l[1..]);
      assert [l[0]] + l[1..] == l;
      if l[0].0 == k {
        KeysCons((k, v), l[1..]);
      } else {
        PutKeys(l[1..], k, v);
        KeysCons(l[0], Put(l[1..], k, v));
      }
    }
  }

  /** The value of any key after one assignment. */
  lemma {:induction false} PutValue(l: seq<Pair>, k: string, v: string, k': string)
    requires k' in Keys(Put(l, k, v))
    ensures k' == k || k' in Keys(l)
    ensures ValueOf(Put(l, k, v), k') == if k' == k then v else ValueOf(l, k')
    decreases |l|
  {
    PutKeys(l, k, v);
    if l != [] {
      if l[0].0 == k {
        PutValueHere(l, k, v, k');
      } else {
        PutValueLater(l, k, v, k');
      }
    }
  }

  lemma PutValueHere(l: seq<Pair>, k: string, v: string, k': string)
    requires l != [] && l[0].0 == k && k' in Keys(l)
    ensures Put(l, k, v) == [(k, v)] + l[1..]
    ensures Keys(Put(l, k, v)) == Keys(l)
    ensures ValueOf(Put(l, k, v), k') == if k' == k then v else ValueOf(l, k')
  {
    var r := [(k, v)] + l[1..];
    assert Keys(r) == Keys(l);
    var j := IndexOf(Keys(l), k');
    assert r[0] == (k, v);
    if j > 0 {
      assert r[j] == l[j];
    }
  }

  lemma {:induction false} PutValueLater(l: seq<Pair>, k: string, v: string, k': string)
    requires l != [] && l[0].0 != k && k' in Keys(Put(l, k, v))
    requires Keys(Put(l, k, v)) == if k in Keys(l) then Keys(l) else Keys(l) + [k]
    ensures ValueOf(Put(l, k, v), k') == if k' == k then v else ValueOf(l, k')
    decreases |l|, 0
  {
    var t := l[1..];
    var rt := Put(t, k, v);
    assert Put(l, k, v) == [l[0]] + rt;
    assert [l[0]] + t == l;
    if k' == l[0].0 {
      ValueOfHead(l[0], rt);
      ValueOfHead(l[0], t);
    } else {
      KeysCons(l[0], rt);
      ValueOfCons(l[0], rt, k');
      PutValue(t, k, v, k');
      if k' != k {
        KeysCons(l[0], t);
        ValueOfCons(l[0], t, k');
      }
    }
  }

  lemma ValueOfHead(h: Pair, rest: seq<Pair>)
    ensures h.0 in Keys([h] + rest) && ValueOf([h] + rest, h.0) == h.1
  {
    assert Keys([h] + rest)[0] == h.0;
  }

  lemma ValueOfCons(h: Pair, rest: seq<Pair>, k: string)
    requires k != h.0 && k in Keys(rest)
    ensures k in Keys([h] + rest) && ValueOf([h] + rest, k) == ValueOf(rest, k)
  {
    var l := [h] + rest;
    KeysCons(h, rest);
    assert Keys(l) == [h.0] + Keys(rest);
    IndexOfCons(h.0, Keys(rest), k);
    var j := IndexOf(Keys(rest), k);
    assert IndexOf(Keys(l), k) == 1 + j;
    assert l[1 + j] == rest[j];
  }

  lemma {:induction false} ParseOfDistinct(order: seq<Pair>)
    requires Distinct(order)
    ensures Parse(order) == order
    decreases |order|
  {
    if order != [] {
      var init := order[..|order| - 1];
      var last := order[|order| - 1];
      assert init + [last] == order;
      KeysSnoc(init, last);
      assert Keys(init) == Keys(order)[..|order| - 1];
      ParseOfDistinct(init);
      PutNew(init, last.0, last.1);
    }
  }

  /** The parsed array's keys are the fields in order of first occurrence. */
  lemma {:induction false} ParseKeys(order: seq<Pair>)
    ensures Keys(Parse(order)) == FirstFields(order)
    decreases |order|
  {
    if order != [] {
      var init := order[..|order| - 1];
      var last := order[|order| - 1];
      ParseKeys(init);
      PutKeys(Parse(init), last.0, last.1);
    }
  }

  /** No key of the parsed array is repeated. */
  lemma {:induction false} ParseDistinct(order: seq<Pair>)
    ensures Distinct(Parse(order))
    decreases |order|
  {
    if order != [] {
      var init := order[..|order| - 1];
      var last := order[|order| - 1];
      ParseDistinct(init);
      PutKeys(Parse(init), last.0, last.1);
      if last.0 !in Keys(Parse(init)) {
        DistinctSnoc(Keys(Parse(init)), last.0);
      }
    }
  }

  /** Each key of the parsed array holds the direction given last for it. */
  lemma {:induction false} ParseValue(order: seq<Pair>, f: string)
    requires f in Keys(Parse(order))
    ensures f in Keys(order) && ValueOf(Parse(order), f) == LastDir(order, f)
    decreases |order|
  {
    var init := order[..|order| - 1];
    var last := order[|order| - 1];
    PutValue(Parse(init), last.0, last.1, f);
    if f != last.0 {
      ParseValue(init, f);
      var i := IndexOf(Keys(init), f);
      assert order[i].0 == f;
    } else {
      assert order[|order| - 1].0 == f;
    }
  }

  lemma {:induction false} FirstFieldsKeys(order: seq<Pair>, f: string)
    ensures f in FirstFields(order) <==> f in Keys(order)
    decreases |order|
  {
    if order != [] {
      var init := order[..|order| - 1];
      var last := order[|order| - 1];
      assert init + [last] == order;
      KeysSnoc(init, last);
      FirstFieldsKeys(init, f);
    }
  }

  /** The ranking loop keeps exactly the keys of the array. */
  lemma {:induction false} RanksKeys(list: seq<Pair>, k: string)
    ensures k in Ranks(list) <==> k in Keys(list)
    decreases |list|
  {
    if list != [] {
      var init := list[..|list| - 1];
      var last := list[|list| - 1];
      assert init + [last] == list;
      KeysSnoc(init, last);
      RanksKeys(init, k);
    }
  }

  lemma {:induction false} RanksSize(list: seq<Pair>)
    requires Distinct(list)
    ensures |Ranks(list)| == |list|
    decreases |list|
  {
    if list != [] {
      var init := list[..|list| - 1];
      var last := list[|list| - 1];
      assert init + [last] == list;
      KeysSnoc(init, last);
      assert Distinct(init);
      RanksSize(init);
      RanksKeys(init, last.0);
    }
  }

  /** Over an array without repeated keys, the ranking loop gives each key
      its value and its 1-based position. */
  lemma {:induction false} RanksAt(list: seq<Pair>, k: string)
    requires Distinct(list) && k in Keys(list)
    ensures k in Ranks(list)
    ensures Ranks(list)[k] == Sort(ValueOf(list, k), 1 + IndexOf(Keys(list), k))
    decreases |list|
  {
    var init := list[..|list| - 1];
    var last := list[|list| - 1];
    assert init + [last] == list;
    KeysSnoc(init, last);
    var ks := Keys(init);
    assert Keys(list) == ks + [last.0];
    RanksKeys(list, k);
    assert Ranks(list) == Ranks(init)[last.0 := Sort(last.1, |list|)];
    if k == last.0 {
      assert last.0 !in ks by {
        assert Keys(list)[|list| - 1] == last.0;
        assert ks == Keys(list)[..|list| - 1];
      }
      IndexOfLast(ks, k);
      assert IndexOf(Keys(list), k) == |init|;
      assert list[|init|] == last;
    } else {
      assert Distinct(init) by {
        assert ks == Keys(list)[..|list| - 1];
      }
      RanksAt(init, k);
      IndexOfPrefix(ks, k, last.0);
      var j := IndexOf(ks, k);
      assert IndexOf(Keys(list), k) == j;
      assert list[j] == init[j];
    }
  }
}
