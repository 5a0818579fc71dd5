/**
 * `get_diff`: turning the parsed `resource_changes` of a Terraform plan into
 * a before list and an after list, each sorted by resource address.  The
 * before/after payloads are carried along untouched, so they are a type
 * parameter here.
 */
module PlanDiff {
  import opened Wrappers
  import opened Text

  /** One record of `resource_changes`: its address and its `change` object. */
  datatype ResourceChange<V> = ResourceChange(address: string, actions: seq<string>, before: V, after: V)

  /** `{'resource': address, 'change': before-or-after}`. */
  datatype DiffEntry<V> = DiffEntry(resource: string, change: V)

  /** `{}` when the plan has no `resource_changes`, else `{before: {data: ...}, after: {data: ...}}`. */
  datatype Diff<V> = NoResourceChanges | BeforeAfter(before: seq<DiffEntry<V>>, after: seq<DiffEntry<V>>)

  /** An update, or a replacement, shows up on both sides. */
  predicate ShowsBoth(actions: seq<string>)
  {
    actions == ["update"] || actions == ["delete", "create"]
  }

  /** Records whose prior state goes into the before list. */
  predicate ShowsBefore(actions: seq<string>)
  {
    ShowsBoth(actions) || actions == ["delete"]
  }

  /** Records whose planned state goes into the after list. */
  predicate ShowsAfter(actions: seq<string>)
  {
    ShowsBoth(actions) || actions == ["create"]
  }

  function BeforeEntry<V>(rc: ResourceChange<V>): DiffEntry<V>
  {
    DiffEntry(rc.address, rc.before)
  }

  function AfterEntry<V>(rc: ResourceChange<V>): DiffEntry<V>
  {
    DiffEntry(rc.address, rc.after)
  }

  /** The before entries of the records, in record order. */
  function BeforeEntries<V>(rcs: seq<ResourceChange<V>>): seq<DiffEntry<V>>
  {
    if rcs == [] then []
    else
      var last := rcs[|rcs| - 1];
      BeforeEntries(rcs[..|rcs| - 1]) + (if ShowsBefore(last.actions) then [BeforeEntry(last)] else [])
  }

  /** The after entries of the records, in record order. */
  function AfterEntries<V>(rcs: seq<ResourceChange<V>>): seq<DiffEntry<V>>
  {
    if rcs == [] then []
    else
      var last := rcs[|rcs| - 1];
      AfterEntries(rcs[..|rcs| - 1]) + (if ShowsAfter(last.actions) then [AfterEntry(last)] else [])
  }

  /** Whether any record made it into either list. */
  function AnyShown<V>(rcs: seq<ResourceChange<V>>): bool
  {
    if rcs == [] then false
    else
      var last := rcs[|rcs| - 1];
      AnyShown(rcs[..|rcs| - 1]) || ShowsBefore(last.actions) || ShowsAfter(last.actions)
  }

  /** Entries are in non-decreasing address order. */
  predicate SortedByResource<V>(es: seq<DiffEntry<V>>)
  {
    forall i, j :: 0 <= i < j < |es| ==> !Less(es[j].resource, es[i].resource)
  }

  /** Insert after every entry whose address is not greater: the step of a stable sort. */
  function Insert<V>(es: seq<DiffEntry<V>>, e: DiffEntry<V>): seq<DiffEntry<V>>
  {
    if es == [] then [e]
    else if Less(e.resource, es[0].resource) then [e] + es
    else [es[0]] + Insert(es[1..], e)
  }

  /** `list.sort(key=lambda e: e['resource'])`: a stable sort by address. */
  function SortedByAddress<V>(es: seq<DiffEntry<V>>): (sorted: seq<DiffEntry<V>>)
    ensures multiset(sorted) == multiset(es)
  {
    if es == [] then []
    else
      var prefix := es[..|es| - 1];
      InsertPermutation(SortedByAddress(prefix), es[|es| - 1]);
      assert es == prefix + [es[|es| - 1]];
      Insert(SortedByAddress(prefix), es[|es| - 1])
  }

  /** The entries for one address, in order. */
  function OfResource<V>(es: seq<DiffEntry<V>>, address: string): seq<DiffEntry<V>>
  {
    if es == [] then []
    else (if es[0].resource == address then [es[0]] else []) + OfResource(es[1..], address)
  }

  /**
   * `get_diff` over the already parsed plan: `None` when the plan has no
   * `resource_changes` member.
   */
  method GetDiff<V>(resourceChanges: Option<seq<ResourceChange<V>>>) returns (changed: bool, diff: Diff<V>)
    ensures resourceChanges.None? ==> !changed && diff == NoResourceChanges
    ensures resourceChanges.Some? ==>
              && changed == AnyShown(resourceChanges.value)
              && diff == BeforeAfter(SortedByAddress(BeforeEntries(resourceChanges.value)),
                                     SortedByAddress(AfterEntries(resourceChanges.value)))
  {
    if resourceChanges.None? {
      return false, NoResourceChanges;
    }
    var items := resourceChanges.value;
    var diffAfter: seq<DiffEntry<V>> := [];
    var diffBefore: seq<DiffEntry<V>> := [];
    changed := false;
    for i := 0 to |items|
      invariant diffBefore == BeforeEntries(items[..i])
      invariant diffAfter == AfterEntries(items[..i])
      invariant changed == AnyShown(items[..i])
    {
      assert items[..i + 1][..i] == items[..i];
      var item := items[i];
      var beforeState := DiffEntry(item.address, item.before);
      var afterState := DiffEntry(item.address, item.after);
      if item.actions == ["update"] || item.actions == ["delete", "create"] {
        diffBefore := diffBefore + [beforeState];
        diffAfter := diffAfter + [afterState];
        changed := true;
      }
      if item.actions == ["delete"] {
        diffBefore := diffBefore + [beforeState];
        changed := true;
      }
      if item.actions == ["create"] {
        diffAfter := diffAfter + [afterState];
        changed := true;
      }
    }
    assert items[..|items|] == items;
    diffBefore := SortedByAddress(diffBefore);
    diffAfter := SortedByAddress(diffAfter);
    diff := BeforeAfter(diffBefore, diffAfter);
  }

  // ---------------------------------------------------------------------------
  // Classification.

  /** `changed` is true exactly when some record is shown on either side. */
  lemma {:induction false} AnyShownIff<V>(rcs: seq<ResourceChange<V>>)
    ensures AnyShown(rcs) <==> exists i :: 0 <= i < |rcs| && (ShowsBefore(rcs[i].actions) || ShowsAfter(rcs[i].actions))
    decreases |rcs|
  {
    if rcs != [] {
      var prefix := rcs[..|rcs| - 1];
      AnyShownIff(prefix);
      if exists i :: 0 <= i < |prefix| && (ShowsBefore(prefix[i].actions) || ShowsAfter(prefix[i].actions)) {
        var i :| 0 <= i < |prefix| && (ShowsBefore(prefix[i].actions) || ShowsAfter(prefix[i].actions));
        assert rcs[i] == prefix[i];
      }
      if exists i :: 0 <= i < |rcs| && (ShowsBefore(rcs[i].actions) || ShowsAfter(rcs[i].actions)) {
        var i :| 0 <= i < |rcs| && (ShowsBefore(rcs[i].actions) || ShowsAfter(rcs[i].actions));
        if i < |prefix| {
          assert rcs[i] == prefix[i];
        }
      }
    }
  }

  /** An entry is in the before list exactly when some update, replacement or deletion produced it. */
  lemma {:induction false} BeforeEntriesMembership<V>(rcs: seq<ResourceChange<V>>, e: DiffEntry<V>)
    ensures e in BeforeEntries(rcs) <==>
              exists i :: 0 <= i < |rcs| && ShowsBefore(rcs[i].actions) && e == BeforeEntry(rcs[i])
    decreases |rcs|
  {
    if rcs != [] {
      var prefix := rcs[..|rcs| - 1];
      BeforeEntriesMembership(prefix, e);
      if exists i :: 0 <= i < |prefix| && ShowsBefore(prefix[i].actions) && e == BeforeEntry(prefix[i]) {
        var i :| 0 <= i < |prefix| && ShowsBefore(prefix[i].actions) && e == BeforeEntry(prefix[i]);
        assert rcs[i] == prefix[i];
      }
      if exists i :: 0 <= i < |rcs| && ShowsBefore(rcs[i].actions) && e == BeforeEntry(rcs[i]) {
        var i :| 0 <= i < |rcs| && ShowsBefore(rcs[i].actions) && e == BeforeEntry(rcs[i]);
        if i < |prefix| {
          assert rcs[i] == prefix[i];
        }
      }
    }
  }

  /** An entry is in the after list exactly when some update, replacement or creation produced it. */
  lemma {:induction false} AfterEntriesMembership<V>(rcs: seq<ResourceChange<V>>, e: DiffEntry<V>)
    ensures e in AfterEntries(rcs) <==>
              exists i :: 0 <= i < |rcs| && ShowsAfter(rcs[i].actions) && e == AfterEntry(rcs[i])
    decreases |rcs|
  {
    if rcs != [] {
      var prefix := rcs[..|rcs| - 1];
      AfterEntriesMembership(prefix, e);
      if exists i :: 0 <= i < |prefix| && ShowsAfter(prefix[i].actions) && e == AfterEntry(prefix[i]) {
        var i :| 0 <= i < |prefix| && ShowsAfter(prefix[i].actions) && e == AfterEntry(prefix[i]);
        assert rcs[i] == prefix[i];
      }
      if exists i :: 0 <= i < |rcs| && ShowsAfter(rcs[i].actions) && e == AfterEntry(rcs[i]) {
        var i :| 0 <= i < |rcs| && ShowsAfter(rcs[i].actions) && e == AfterEntry(rcs[i]);
        if i < |prefix| {
          assert rcs[i] == prefix[i];
        }
      }
    }
  }

  /** Deletions only ever appear before, creations only after, anything else nowhere. */
  lemma ClassificationTable(actions: seq<string>)
    ensures actions == ["delete"] ==> ShowsBefore(actions) && !ShowsAfter(actions)
    ensures actions == ["create"] ==> !ShowsBefore(actions) && ShowsAfter(actions)
    ensures ShowsBefore(actions) && ShowsAfter(actions) <==> ShowsBoth(actions)
    ensures !ShowsBefore(actions) && !ShowsAfter(actions) <==>
              actions != ["update"] && actions != ["delete", "create"]
              && actions != ["delete"] && actions != ["create"]
  {
  }

  // ---------------------------------------------------------------------------
  // The sort.

  /** An address below the first of a sorted list is below all of them, so none equals it. */
  lemma BelowSortedHead<V>(es: seq<DiffEntry<V>>, address: string)
    requires SortedByResource(es) && es != [] && Less(address, es[0].resource)
    ensures forall k :: 0 <= k < |es| ==> Less(address, es[k].resource)
  {
    forall k | 0 <= k < |es| ensures Less(address, es[k].resource) {
      if k > 0 {
        LessTotal(es[0].resource, es[k].resource);
        if es[0].resource != es[k].resource {
          LessTransitive(address, es[0].resource, es[k].resource);
        }
      }
    }
  }

  /** Putting an entry no greater than all of a sorted list in front keeps it sorted. */
  lemma PrependSorted<V>(x: DiffEntry<V>, t: seq<DiffEntry<V>>)
    requires SortedByResource(t)
    requires forall k :: 0 <= k < |t| ==> !Less(t[k].resource, x.resource)
    ensures SortedByResource([x] + t)
  {
    var r := [x] + t;
    forall i, j | 0 <= i < j < |r| ensures !Less(r[j].resource, r[i].resource) {
      assert r[j] == t[j - 1];
      if i > 0 {
        assert r[i] == t[i - 1];
      }
    }
  }

  lemma {:induction false} InsertPermutation<V>(es: seq<DiffEntry<V>>, e: DiffEntry<V>)
    ensures multiset(Insert(es, e)) == multiset(es) + multiset{e}
    decreases |es|
  {
    if es != [] && !Less(e.resource, es[0].resource) {
      InsertPermutation(es[1..], e);
      assert es == [es[0]] + es[1..];
      assert multiset([es[0]] + Insert(es[1..], e)) == multiset{es[0]} + multiset(Insert(es[1..], e));
    }
  }

  lemma {:induction false} InsertSorted<V>(es: seq<DiffEntry<V>>, e: DiffEntry<V>)
    requires SortedByResource(es)
    ensures SortedByResource(Insert(es, e))
    decreases |es|
  {
    if es != [] {
      if Less(e.resource, es[0].resource) {
        BelowSortedHead(es, e.resource);
        forall k | 0 <= k < |es| ensures !Less(es[k].resource, e.resource) {
          LessAsymmetric(e.resource, es[k].resource);
        }
        PrependSorted(e, es);
      } else {
        var tail := es[1..];
        SortedTail(es);
        InsertSorted(tail, e);
        InsertPermutation(tail, e);
        var t := Insert(tail, e);
        forall k | 0 <= k < |t| ensures !Less(t[k].resource, es[0].resource) {
          assert t[k] in multiset(t);
          if t[k] != e {
            assert t[k] in multiset(tail);
            var m :| 0 <= m < |tail| && tail[m] == t[k];
            assert tail[m] == es[m + 1];
          }
        }
        PrependSorted(es[0], t);
      }
    }
  }

  lemma SortedTail<V>(es: seq<DiffEntry<V>>)
    requires SortedByResource(es) && es != []
    ensures SortedByResource(es[1..])
  {
    var tail := es[1..];
    forall i, j | 0 <= i < j < |tail| ensures !Less(tail[j].resource, tail[i].resource) {
      assert tail[i] == es[i + 1] && tail[j] == es[j + 1];
    }
  }

  lemma {:induction false} InsertOfResource<V>(es: seq<DiffEntry<V>>, e: DiffEntry<V>, address: string)
    requires SortedByResource(es)
    ensures OfResource(Insert(es, e), address)
         == OfResource(es, address) + (if e.resource == address then [e] else [])
    decreases |es|
  {
    var own := if e.resource == address then [e] else [];
    if es == [] {
      assert OfResource([e], address) == own + OfResource([e][1..], address);
    } else if Less(e.resource, es[0].resource) {
      var r := [e] + es;
      assert r[0] == e && r[1..] == es;
      assert OfResource(r, address) == own + OfResource(es, address);
      if e.resource == address {
        BelowSortedHead(es, e.resource);
        NoneOfResource(es, address);
      }
    } else {
      var head := if es[0].resource == address then [es[0]] else [];
      SortedTail(es);
      InsertOfResource(es[1..], e, address);
      var r := [es[0]] + Insert(es[1..], e);
      assert r[0] == es[0] && r[1..] == Insert(es[1..], e);
      assert OfResource(r, address) == head + OfResource(Insert(es[1..], e), address);
      assert OfResource(es, address) == head + OfResource(es[1..], address);
    }
  }

  lemma {:induction false} NoneOfResource<V>(es: seq<DiffEntry<V>>, address: string)
    requires forall k :: 0 <= k < |es| ==> Less(address, es[k].resource)
    ensures OfResource(es, address) == []
    decreases |es|
  {
    if es != [] {
      LessIrreflexive(address);
      NoneOfResource(es[1..], address);
    }
  }

  lemma {:induction false} OfResourceAppend<V>(a: seq<DiffEntry<V>>, b: seq<DiffEntry<V>>, address: string)
    ensures OfResource(a + b, address) == OfResource(a, address) + OfResource(b, address)
    decreases |a|
  {
    if a == [] {
      assert a + b == b;
    } else {
      OfResourceAppend(a[1..], b, address);
      assert (a + b)[1..] == a[1..] + b;
    }
  }

  /** Both lists come out sorted by address and hold exactly the entries that went in. */
  lemma {:induction false} SortedByAddressCorrect<V>(es: seq<DiffEntry<V>>)
    ensures SortedByResource(SortedByAddress(es))
    ensures multiset(SortedByAddress(es)) == multiset(es)
    decreases |es|
  {
    if es != [] {
      var prefix := es[..|es| - 1];
      SortedByAddressCorrect(prefix);
      InsertSorted(SortedByAddress(prefix), es[|es| - 1]);
    }
  }

  /** The sort is stable: entries with the same address keep their relative order. */
  lemma {:induction false} SortedByAddressStable<V>(es: seq<DiffEntry<V>>, address: string)
    ensures OfResource(SortedByAddress(es), address) == OfResource(es, address)
    decreases |es|
  {
    if es != [] {
      var prefix := es[..|es| - 1];
      var last := es[|es| - 1];
      var own := if last.resource == address then [last] else [];
      calc {
        OfResource(SortedByAddress(es), address);
        OfResource(Insert(SortedByAddress(prefix), last), address);
        { SortedByAddressCorrect(prefix); InsertOfResource(SortedByAddress(prefix), last, address); }
        OfResource(SortedByAddress(prefix), address) + own;
        { SortedByAddressStable(prefix, address); }
        OfResource(prefix, address) + own;
        { assert OfResource([last], address) == own + OfResource([], address); }
        OfResource(prefix, address) + OfResource([last], address);
        { OfResourceAppend(prefix, [last], address); assert es == prefix + [last]; }
        OfResource(es, address);
      }
    }
  }

  /**
   * What `get_diff` returns, summed up: sorted lists holding exactly the
   * classified entries, and `changed` telling whether there were any.
   */
  lemma GetDiffMeaning<V>(rcs: seq<ResourceChange<V>>)
    ensures SortedByResource(SortedByAddress(BeforeEntries(rcs)))
    ensures SortedByResource(SortedByAddress(AfterEntries(rcs)))
    ensures forall e :: e in SortedByAddress(BeforeEntries(rcs)) <==>
              exists i :: 0 <= i < |rcs| && ShowsBefore(rcs[i].actions) && e == BeforeEntry(rcs[i])
    ensures forall e :: e in SortedByAddress(AfterEntries(rcs)) <==>
              exists i :: 0 <= i < |rcs| && ShowsAfter(rcs[i].actions) && e == AfterEntry(rcs[i])
    ensures AnyShown(rcs) <==> exists i :: 0 <= i < |rcs| && (ShowsBefore(rcs[i].actions) || ShowsAfter(rcs[i].actions))
  {
    SortedByAddressCorrect(BeforeEntries(rcs));
    SortedByAddressCorrect(AfterEntries(rcs));
    AnyShownIff(rcs);
    forall e ensures e in SortedByAddress(BeforeEntries(rcs)) <==>
        exists i :: 0 <= i < |rcs| && ShowsBefore(rcs[i].actions) && e == BeforeEntry(rcs[i]) {
      BeforeEntriesMembership(rcs, e);
      assert e in SortedByAddress(BeforeEntries(rcs)) <==> e in multiset(BeforeEntries(rcs));
    }
    forall e ensures e in SortedByAddress(AfterEntries(rcs)) <==>
        exists i :: 0 <= i < |rcs| && ShowsAfter(rcs[i].actions) && e == AfterEntry(rcs[i]) {
      AfterEntriesMembership(rcs, e);
      assert e in SortedByAddress(AfterEntries(rcs)) <==> e in multiset(AfterEntries(rcs));
    }
  }
}
