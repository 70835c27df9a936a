/**
 * The registry of menu entries (ModMenuPatcher.Mods). Every mutation appends and then re-sorts
 * the whole list with List<T>.Sort and the case-insensitive ordinal comparer. List<T>.Sort is
 * not stable, so the order of entries whose names compare equal is not fixed.
 */
module Registry {
  import opened IgnoreCase

  /** The delegate registered for an entry; the model only needs its identity. */
  type CallbackId = nat

  /** ModEntry: a menu name and the callback that draws that mod's submenu. */
  datatype ModEntry = ModEntry(name: string, callback: CallbackId)

  /** a may precede b in the registry. */
  predicate NameLe(a: ModEntry, b: ModEntry) {
    CompareIgnoreCase(a.name, b.name) <= 0
  }

  predicate Sorted(s: seq<ModEntry>) {
    forall i, j :: 0 <= i < j < |s| ==> NameLe(s[i], s[j])
  }

  /** Puts e into the sorted list s after every entry that may precede it. */
  method InsertSorted(s: seq<ModEntry>, e: ModEntry) returns (r: seq<ModEntry>)
    requires Sorted(s)
    ensures Sorted(r)
    ensures multiset(r) == multiset(s) + multiset{e}
  {
    var j := |s|;
    while j > 0 && !NameLe(s[j - 1], e)
      invariant 0 <= j <= |s|
      invariant forall k :: j <= k < |s| ==> !NameLe(s[k], e)
    {
      j := j - 1;
    }
    r := s[..j] + [e] + s[j..];
    InsertBetweenKeepsSorted(s, e, j);
    calc {
      multiset(r);
      multiset(s[..j]) + multiset{e} + multiset(s[j..]);
      { assert s == s[..j] + s[j..]; }
      multiset(s) + multiset{e};
    }
  }

  /** e sorts after everything before position j and before everything from j on. */
  lemma InsertBetweenKeepsSorted(s: seq<ModEntry>, e: ModEntry, j: nat)
    requires Sorted(s) && j <= |s|
    requires j > 0 ==> NameLe(s[j - 1], e)
    requires forall k :: j <= k < |s| ==> !NameLe(s[k], e)
    ensures Sorted(s[..j] + [e] + s[j..])
  {
    var r := s[..j] + [e] + s[j..];
    forall k | j <= k < |s|
      ensures NameLe(e, s[k])
    {
      IgnoreCaseTotal(s[k].name, e.name);
    }
    forall k | 0 <= k < j
      ensures NameLe(s[k], e)
    {
      if k < j - 1 {
        IgnoreCaseTransitive(s[k].name, s[j - 1].name, e.name);
      }
    }
    forall a, b | 0 <= a < b < |r|
      ensures NameLe(r[a], r[b])
    {
      if a < j && b > j {
        IgnoreCaseTransitive(r[a].name, e.name, r[b].name);
      }
    }
  }

  /** List<T>.Sort with the case-insensitive comparer: the result is ordered by name and holds
      exactly the entries it was given. */
  method SortByName(s: seq<ModEntry>) returns (r: seq<ModEntry>)
    ensures Sorted(r)
    ensures multiset(r) == multiset(s)
    ensures |r| == |s|
  {
    r := [];
    for i := 0 to |s|
      invariant Sorted(r)
      invariant multiset(r) == multiset(s[..i])
    {
      r := InsertSorted(r, s[i]);
      assert s[..i + 1] == s[..i] + [s[i]];
    }
    assert s[..|s|] == s;
    assert |r| == |multiset(r)|;
  }

  /** Two names are the same up to case. */
  predicate SameName(a: ModEntry, b: ModEntry) {
    UpperAll(a.name) == UpperAll(b.name)
  }

  lemma BothWaysSameName(a: ModEntry, b: ModEntry)
    requires NameLe(a, b) && NameLe(b, a)
    ensures SameName(a, b)
  {
    IgnoreCaseTotal(a.name, b.name);
  }

  /** Taking one entry out of a sorted list leaves it sorted. */
  lemma RemoveKeepsSorted(s: seq<ModEntry>, p: nat)
    requires Sorted(s) && p < |s|
    ensures Sorted(s[..p] + s[p + 1..])
  {
    var r := s[..p] + s[p + 1..];
    forall i, j | 0 <= i < j < |r| ensures NameLe(r[i], r[j]) {
      var i0 := if i < p then i else i + 1;
      var j0 := if j < p then j else j + 1;
      assert r[i] == s[i0] && r[j] == s[j0];
    }
  }

  lemma RemoveOne(a: seq<ModEntry>, b: seq<ModEntry>, p: nat)
    requires a != [] && p < |b| && b[p] == a[0] && multiset(a) == multiset(b)
    ensures multiset(b[..p] + b[p + 1..]) == multiset(a[1..])
  {
    assert b == b[..p] + [b[p]] + b[p + 1..];
    assert multiset(b) == multiset(b[..p]) + multiset{b[p]} + multiset(b[p + 1..]);
    assert a == [a[0]] + a[1..];
    assert multiset(a) == multiset{a[0]} + multiset(a[1..]);
    assert multiset(b[..p] + b[p + 1..]) == multiset(b[..p]) + multiset(b[p + 1..]);
    calc {
      multiset(b[..p] + b[p + 1..]);
      multiset(b) - multiset{b[p]};
      multiset(a) - multiset{a[0]};
      multiset(a[1..]);
    }
  }

  /** In a sorted list, an entry that may also precede the first one shares its name, up to
      case, with everything before it. */
  lemma SortedHeadRun(s: seq<ModEntry>, p: nat)
    requires Sorted(s) && p < |s| && NameLe(s[p], s[0])
    ensures forall i :: 0 <= i <= p ==> SameName(s[i], s[p])
  {
    forall i | 0 <= i <= p
      ensures SameName(s[i], s[p])
    {
      if i < p {
        IgnoreCaseTransitive(s[p].name, s[0].name, s[i].name);
        BothWaysSameName(s[i], s[p]);
      } else {
        IgnoreCaseTotal(s[i].name, s[p].name);
        BothWaysSameName(s[i], s[p]);
      }
    }
  }

  /** Sorting fixes the registry's order up to entries whose names differ only in case: any two
      sorted arrangements of the same entries agree, position by position, on the names. */
  lemma {:induction false} SortedOrderDetermined(a: seq<ModEntry>, b: seq<ModEntry>)
    requires Sorted(a) && Sorted(b) && multiset(a) == multiset(b)
    ensures |a| == |b|
    ensures forall i :: 0 <= i < |a| ==> SameName(a[i], b[i])
  {
    assert |a| == |multiset(a)| && |b| == |multiset(b)|;
    if a != [] {
      var x := a[0];
      assert x in multiset(b);
      var p :| 0 <= p < |b| && b[p] == x;
      assert b[0] in multiset(a);
      var q :| 0 <= q < |a| && a[q] == b[0];
      IgnoreCaseTotal(x.name, x.name);
      assert NameLe(x, b[0]);
      SortedHeadRun(b, p);
      var b' := b[..p] + b[p + 1..];
      RemoveOne(a, b, p);
      RemoveKeepsSorted(b, p);
      SortedOrderDetermined(a[1..], b');
      forall i | 0 <= i < |a|
        ensures SameName(a[i], b[i])
      {
        if i == 0 {
        } else if i - 1 < p {
          assert a[i] == a[1..][i - 1] && b'[i - 1] == b[i - 1];
        } else {
          assert a[i] == a[1..][i - 1] && b'[i - 1] == b[i];
        }
      }
    }
  }
}
