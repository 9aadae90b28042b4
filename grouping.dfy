/**
 * Grouping rows by a key, in the order the keys first appear: the shape the
 * two region loaders share. A row opens a group when its key is new (the
 * row's header becomes the group's header) and appends its item to the
 * group of its key either way.
 */
module Grouping {
  import opened Wrappers
  import opened Seqs

  /** One row: the key it is grouped by, the header a new group takes from it, and the item it contributes. */
  datatype Entry<K, H, V> = Entry(key: K, head: H, item: V)

  /** A group: the header fixed by its first row and the items of all its rows. */
  datatype Group<H, V> = Group(head: H, items: seq<V>)

  /** Adding one row to the groups. */
  function AddEntry<K, H, V>(m: map<K, Group<H, V>>, e: Entry<K, H, V>): map<K, Group<H, V>> {
    if e.key in m then m[e.key := Group(m[e.key].head, m[e.key].items + [e.item])]
    else m[e.key := Group(e.head, [e.item])]
  }

  /** The groups of the rows `es`, added one after the other. */
  function GroupAll<K, H, V>(es: seq<Entry<K, H, V>>): map<K, Group<H, V>>
    decreases |es|
  {
    if |es| == 0 then map[] else AddEntry(GroupAll(es[..|es| - 1]), es[|es| - 1])
  }

  /** The key of every row, in order. */
  function Keys<K, H, V>(es: seq<Entry<K, H, V>>): (ks: seq<K>)
    ensures |ks| == |es|
    ensures forall i | 0 <= i < |es| :: ks[i] == es[i].key
  {
    seq(|es|, i requires 0 <= i < |es| => es[i].key)
  }

  /** The items of the rows with key `k`, in row order: an independent description of a group's contents. */
  function ItemsOf<K(==), H, V>(es: seq<Entry<K, H, V>>, k: K): seq<V>
    decreases |es|
  {
    if |es| == 0 then []
    else ItemsOf(es[..|es| - 1], k) + (if es[|es| - 1].key == k then [es[|es| - 1].item] else [])
  }

  /** The keys of the groups in the order their first rows come. */
  function KeyOrder<K(==), H, V>(es: seq<Entry<K, H, V>>): seq<K> {
    Dedup(Keys(es))
  }

  /** One more entry adds its key at the end. */
  lemma KeysSnoc<K, H, V>(es: seq<Entry<K, H, V>>, e: Entry<K, H, V>)
    ensures Keys(es + [e]) == Keys(es) + [e.key]
  {
  }

  /** A group exists for exactly the keys some row has. */
  lemma {:induction false} GroupAllDomain<K, H, V>(es: seq<Entry<K, H, V>>, k: K)
    ensures k in GroupAll(es) <==> k in Keys(es)
    decreases |es|
  {
    if |es| > 0 {
      var init, e := es[..|es| - 1], es[|es| - 1];
      GroupAllDomain(init, k);
      assert es == init + [e];
      KeysSnoc(init, e);
    }
  }

  /** A group's items are those of the rows with its key, in row order. */
  lemma {:induction false} GroupAllItems<K, H, V>(es: seq<Entry<K, H, V>>, k: K)
    requires k in GroupAll(es)
    ensures GroupAll(es)[k].items == ItemsOf(es, k)
    decreases |es|
  {
    var init, e := es[..|es| - 1], es[|es| - 1];
    var m := GroupAll(init);
    assert ItemsOf(es, k) == ItemsOf(init, k) + (if e.key == k then [e.item] else []);
    if k in m {
      GroupAllItems(init, k);
    } else {
      GroupAllDomain(init, k);
      ItemsOfAbsent(init, k);
    }
  }

  /** A group's header is that of the first row with its key. */
  lemma {:induction false} GroupAllHead<K, H, V>(es: seq<Entry<K, H, V>>, k: K)
    requires k in GroupAll(es)
    ensures k in Keys(es) && GroupAll(es)[k].head == es[FirstIndex(Keys(es), k)].head
    decreases |es|
  {
    var init, e := es[..|es| - 1], es[|es| - 1];
    assert es == init + [e];
    KeysSnoc(init, e);
    GroupAllDomain(es, k);
    GroupAllDomain(init, k);
    if k in GroupAll(init) {
      GroupAllHead(init, k);
      FirstIndexPrefix(Keys(es), k);
    } else {
      assert FirstIndex(Keys(es), k) == |init| by {
        FirstIndexLast(Keys(init), k);
      }
    }
  }

  /** One more row: the groups gain it as `AddEntry` says, and its key is listed last when it is new. */
  lemma GroupStep<K, H, V>(es: seq<Entry<K, H, V>>, e: Entry<K, H, V>)
    ensures GroupAll(es + [e]) == AddEntry(GroupAll(es), e)
    ensures KeyOrder(es + [e]) == if e.key in GroupAll(es) then KeyOrder(es) else KeyOrder(es) + [e.key]
  {
    assert (es + [e])[..|es|] == es;
    KeysSnoc(es, e);
    DedupSnoc(Keys(es), e.key);
    DedupFacts(Keys(es));
    GroupAllDomain(es, e.key);
  }

  /** One more row of a prefix, as `GroupStep` says. */
  lemma GroupPrefixStep<K, H, V>(es: seq<Entry<K, H, V>>, i: nat)
    requires i < |es|
    ensures GroupAll(es[..i + 1]) == AddEntry(GroupAll(es[..i]), es[i])
    ensures KeyOrder(es[..i + 1])
            == if es[i].key in GroupAll(es[..i]) then KeyOrder(es[..i]) else KeyOrder(es[..i]) + [es[i].key]
  {
    assert es[..i + 1] == es[..i] + [es[i]];
    GroupStep(es[..i], es[i]);
  }

  /** A key with a group is the key of some row. */
  lemma GroupAllKeysFrom<K, H, V>(es: seq<Entry<K, H, V>>, k: K) returns (j: nat)
    requires k in GroupAll(es)
    ensures j < |es| && es[j].key == k
  {
    GroupAllDomain(es, k);
    j := FirstIndex(Keys(es), k);
  }

  /** One more element of a sequence whose elements give the rows: the groups and their order after it. */
  lemma FilterGroupStep<A, K, H, V>(f: A -> Option<Entry<K, H, V>>, s: seq<A>, i: nat)
    requires i < |s|
    ensures var before, e := FilterMap(f, s[..i]), f(s[i]);
            GroupAll(FilterMap(f, s[..i + 1])) == (if e.Some? then AddEntry(GroupAll(before), e.value) else GroupAll(before))
            && KeyOrder(FilterMap(f, s[..i + 1]))
               == (if e.Some? && e.value.key !in GroupAll(before) then KeyOrder(before) + [e.value.key] else KeyOrder(before))
  {
    FilterMapStep(f, s, i);
    var before, e := FilterMap(f, s[..i]), f(s[i]);
    if e.Some? {
      assert FilterMap(f, s[..i + 1]) == before + [e.value];
      GroupStep(before, e.value);
    } else {
      assert FilterMap(f, s[..i + 1]) == before;
    }
  }

  /** A key that no row has collects no items. */
  lemma {:induction false} ItemsOfAbsent<K, H, V>(es: seq<Entry<K, H, V>>, k: K)
    requires k !in Keys(es)
    ensures ItemsOf(es, k) == []
    decreases |es|
  {
    if |es| > 0 {
      var init := es[..|es| - 1];
      assert forall i | 0 <= i < |init| :: init[i].key == es[i].key;
      ItemsOfAbsent(init, k);
    }
  }

  /** Every key with a group is listed once, in order of first appearance, and only those keys are listed. */
  lemma KeyOrderFacts<K, H, V>(es: seq<Entry<K, H, V>>)
    ensures Distinct(KeyOrder(es))
    ensures forall k :: k in KeyOrder(es) <==> k in GroupAll(es)
    ensures forall k :: k in KeyOrder(es) <==> k in Keys(es)
    ensures forall i, j | 0 <= i < j < |KeyOrder(es)| ::
              FirstIndex(Keys(es), KeyOrder(es)[i]) < FirstIndex(Keys(es), KeyOrder(es)[j])
  {
    DedupFacts(Keys(es));
    forall k ensures k in KeyOrder(es) <==> k in GroupAll(es) && k in Keys(es) {
      GroupAllDomain(es, k);
    }
    forall i, j | 0 <= i < j < |KeyOrder(es)|
      ensures FirstIndex(Keys(es), KeyOrder(es)[i]) < FirstIndex(Keys(es), KeyOrder(es)[j])
    {
      DedupOrder(Keys(es), i, j);
    }
  }

  // ---------------------------------------------------------------- counting items

  /** The number of items in the groups of the keys `ks`. */
  function ItemTotal<K(==), H, V>(es: seq<Entry<K, H, V>>, ks: seq<K>): nat {
    SumOf(k => |ItemsOf(es, k)|, ks)
  }

  lemma ItemTotalPermutation<K, H, V>(es: seq<Entry<K, H, V>>, a: seq<K>, b: seq<K>)
    requires multiset(a) == multiset(b)
    ensures ItemTotal(es, a) == ItemTotal(es, b)
  {
    SumPermutation(k => |ItemsOf(es, k)|, a, b);
  }

  /** One more row adds one item to the total of any duplicate-free key list that holds its key, and none otherwise. */
  lemma {:induction false} ItemTotalSnoc<K, H, V>(es: seq<Entry<K, H, V>>, e: Entry<K, H, V>, ks: seq<K>)
    requires Distinct(ks)
    ensures ItemTotal(es + [e], ks) == ItemTotal(es, ks) + (if e.key in ks then 1 else 0)
    decreases |ks|
  {
    if |ks| > 0 {
      var init, k := ks[..|ks| - 1], ks[|ks| - 1];
      assert Distinct(init);
      ItemTotalSnoc(es, e, init);
      assert (es + [e])[..|es|] == es;
      assert ks == init + [k];
      assert e.key in ks <==> e.key in init || e.key == k;
      assert e.key == k ==> e.key !in init;
    }
  }

  /** Every row lands in exactly one group: the groups hold as many items as there are rows. */
  lemma {:induction false} ItemTotalAll<K, H, V>(es: seq<Entry<K, H, V>>)
    ensures ItemTotal(es, KeyOrder(es)) == |es|
    decreases |es|
  {
    if |es| > 0 {
      var init, e := es[..|es| - 1], es[|es| - 1];
      assert es == init + [e];
      ItemTotalAll(init);
      KeysSnoc(init, e);
      var d := KeyOrder(init);
      DedupFacts(Keys(init));
      DedupSnoc(Keys(init), e.key);
      ItemTotalSnoc(init, e, d);
      if e.key !in d {
        var d' := d + [e.key];
        assert d'[..|d|] == d;
        ItemsOfAbsent(init, e.key);
      }
    }
  }

  // ---------------------------------------------------------------- listing the groups

  /** The groups of the keys `ks`, in that order. */
  function GroupsOf<K(==), H, V>(es: seq<Entry<K, H, V>>, ks: seq<K>): (gs: seq<Group<H, V>>)
    requires forall k | k in ks :: k in GroupAll(es)
    ensures |gs| == |ks|
  {
    seq(|ks|, i requires 0 <= i < |ks| => GroupAll(es)[ks[i]])
  }

  /**
   * Each listed group belongs to a key some row has; its header is that of
   * the key's first row and its items are those of the key's rows, in row
   * order.
   */
  lemma GroupsOfFacts<K, H, V>(es: seq<Entry<K, H, V>>, ks: seq<K>)
    requires forall k | k in ks :: k in GroupAll(es)
    ensures forall i | 0 <= i < |ks| ::
              ks[i] in Keys(es)
              && GroupsOf(es, ks)[i].head == es[FirstIndex(Keys(es), ks[i])].head
              && GroupsOf(es, ks)[i].items == ItemsOf(es, ks[i])
  {
    forall i | 0 <= i < |ks|
      ensures ks[i] in Keys(es)
              && GroupsOf(es, ks)[i].head == es[FirstIndex(Keys(es), ks[i])].head
              && GroupsOf(es, ks)[i].items == ItemsOf(es, ks[i])
    {
      GroupAllHead(es, ks[i]);
      GroupAllItems(es, ks[i]);
    }
  }

  /** One group per distinct key, in the order of first appearance, each as `GroupsOfFacts` says. */
  lemma FirstSeenGroups<K, H, V>(es: seq<Entry<K, H, V>>)
    ensures forall k | k in KeyOrder(es) :: k in GroupAll(es)
    ensures Distinct(KeyOrder(es))
    ensures forall i | 0 <= i < |KeyOrder(es)| ::
              KeyOrder(es)[i] in Keys(es)
              && GroupsOf(es, KeyOrder(es))[i].head == es[FirstIndex(Keys(es), KeyOrder(es)[i])].head
              && GroupsOf(es, KeyOrder(es))[i].items == ItemsOf(es, KeyOrder(es)[i])
  {
    KeyOrderFacts(es);
    forall k | k in KeyOrder(es) ensures k in GroupAll(es) {
      DedupFacts(Keys(es));
      assert k in Keys(es);
      GroupAllDomain(es, k);
    }
    GroupsOfFacts(es, KeyOrder(es));
  }

  /** The number of items in a list of groups. */
  function TotalItems<H, V>(gs: seq<Group<H, V>>): nat {
    SumOf(GroupSize, gs)
  }

  /** The number of items in a group. */
  function GroupSize<H, V>(g: Group<H, V>): nat {
    |g.items|
  }

  /** Listing the groups of some keys lists as many items as those keys' rows. */
  lemma {:induction false} GroupsOfTotal<K, H, V>(es: seq<Entry<K, H, V>>, ks: seq<K>)
    requires forall k | k in ks :: k in GroupAll(es)
    ensures TotalItems(GroupsOf(es, ks)) == ItemTotal(es, ks)
    decreases |ks|
  {
    if |ks| > 0 {
      var init, k := ks[..|ks| - 1], ks[|ks| - 1];
      assert forall x | x in init :: x in ks;
      GroupsOfTotal(es, init);
      assert GroupsOf(es, ks)[..|ks| - 1] == GroupsOf(es, init);
      GroupAllItems(es, k);
    }
  }

  /** Listing the groups in any order of the keys in first-appearance order lists every row's item once. */
  lemma ListedTotal<K, H, V>(es: seq<Entry<K, H, V>>, ks: seq<K>)
    requires multiset(ks) == multiset(KeyOrder(es))
    ensures forall k | k in ks :: k in GroupAll(es)
    ensures TotalItems(GroupsOf(es, ks)) == |es|
  {
    KeyOrderFacts(es);
    assert forall k | k in ks :: k in multiset(KeyOrder(es));
    GroupsOfTotal(es, ks);
    ItemTotalPermutation(es, ks, KeyOrder(es));
    ItemTotalAll(es);
  }
}
