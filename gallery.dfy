/**
  The gallery keeps the store's listing in memory, read once when it
  appears, and deletes by position: the URLs at the swiped offsets are
  removed from the store, then the same offsets from the in-memory list.
  The two stay aligned only because both are changed together.
 */
module Gallery {
  import opened StringOrder
  import opened Paths
  import opened Sorting
  import opened VideoStore

  /** An `IndexSet`, as its members in ascending order. */
  predicate Ascending(offsets: seq<nat>)
  {
    forall i, j :: 0 <= i < j < |offsets| ==> offsets[i] < offsets[j]
  }

  /** The offsets as a set. */
  function IndexSet(offsets: seq<nat>): (r: set<nat>)
    ensures forall k :: 0 <= k < |offsets| ==> offsets[k] in r
    ensures forall x :: x in r ==> x in offsets
    ensures Ascending(offsets) ==> |r| == |offsets|
  {
    var r := set x: nat | x in offsets;
    if Ascending(offsets) then
      assert Distinct(offsets);
      DistinctCardinality(offsets);
      assert r == set x | x in offsets;
      r
    else r
  }

  /** Removal at offsets: the elements whose index is not in `offs`, in their order. */
  function RemoveOffsets(s: seq<Url>, offs: set<nat>): (r: seq<Url>)
    ensures |r| <= |s|
    ensures forall i :: 0 <= i < |s| && i !in offs ==> s[i] in r
  {
    if s == [] then []
    else RemoveOffsets(s[..|s| - 1], offs) + (if |s| - 1 in offs then [] else [s[|s| - 1]])
  }

  /** The URLs at the given offsets. */
  function Targets(s: seq<Url>, offsets: seq<nat>): (r: set<Url>)
    requires forall k :: 0 <= k < |offsets| ==> offsets[k] < |s|
    ensures forall u :: u in r ==> u in s
  {
    set k | 0 <= k < |offsets| :: s[offsets[k]]
  }

  /** The names of the URLs in `us` that lie in `loc`. */
  function NamesIn(us: set<Url>, loc: Location): set<string>
  {
    set u | u in us && u.location == loc :: u.name
  }

  function OffsetsBelow(offs: set<nat>, n: nat): set<nat>
  {
    set i | i in offs && i < n
  }

  /** Removing offsets within range shortens the list by their number. */
  lemma {:induction false} RemoveOffsetsLength(s: seq<Url>, offs: set<nat>)
    ensures |RemoveOffsets(s, offs)| == |s| - |OffsetsBelow(offs, |s|)|
  {
    if s != [] {
      var n := |s| - 1;
      RemoveOffsetsLength(s[..n], offs);
      if n in offs {
        assert OffsetsBelow(offs, n + 1) == OffsetsBelow(offs, n) + {n};
      } else {
        assert OffsetsBelow(offs, n + 1) == OffsetsBelow(offs, n);
      }
    }
  }

  /** What survives a prefix is a prefix of what survives the whole. */
  lemma {:induction false} RemoveOffsetsPrefix(s: seq<Url>, offs: set<nat>, j: nat)
    requires j <= |s|
    ensures var p := RemoveOffsets(s[..j], offs);
      |p| <= |RemoveOffsets(s, offs)| && RemoveOffsets(s, offs)[..|p|] == p
  {
    if j < |s| {
      var n := |s| - 1;
      assert s[..n][..j] == s[..j];
      RemoveOffsetsPrefix(s[..n], offs, j);
    } else {
      assert s[..j] == s;
    }
  }

  /**
    Each survivor, the element at an index not in `offs`, stands in the
    result at the position given by the number of survivors before it.
   */
  lemma RemoveOffsetsKeeps(s: seq<Url>, offs: set<nat>, i: nat)
    requires i < |s| && i !in offs
    ensures var p := |RemoveOffsets(s[..i], offs)|;
      p < |RemoveOffsets(s, offs)| && RemoveOffsets(s, offs)[p] == s[i]
  {
    assert s[..i + 1][..i] == s[..i];
    RemoveOffsetsPrefix(s, offs, i + 1);
  }

  /** Survivors keep their relative order. */
  lemma RemoveOffsetsOrder(s: seq<Url>, offs: set<nat>, i: nat, j: nat)
    requires i < j < |s| && i !in offs && j !in offs
    ensures |RemoveOffsets(s[..i], offs)| < |RemoveOffsets(s[..j], offs)|
  {
    assert s[..i + 1][..i] == s[..i];
    assert s[..j][..i + 1] == s[..i + 1];
    RemoveOffsetsPrefix(s[..j], offs, i + 1);
  }

  /** Nothing but the elements at the offsets is removed, and nothing is added. */
  lemma {:induction false} RemoveOffsetsMembers(s: seq<Url>, offs: set<nat>)
    ensures forall u :: u in RemoveOffsets(s, offs) <==> exists i :: 0 <= i < |s| && i !in offs && s[i] == u
  {
    if s != [] {
      var n := |s| - 1;
      RemoveOffsetsMembers(s[..n], offs);
      forall u ensures u in RemoveOffsets(s, offs) <==> exists i :: 0 <= i < |s| && i !in offs && s[i] == u {
        if exists i :: 0 <= i < |s| && i !in offs && s[i] == u {
          var i :| 0 <= i < |s| && i !in offs && s[i] == u;
          if i < n {
            assert s[..n][i] == u;
          }
        }
        if u in RemoveOffsets(s[..n], offs) {
          var i :| 0 <= i < n && i !in offs && s[..n][i] == u;
          assert s[i] == u;
        }
      }
    }
  }

  /** Removing offsets from a strictly descending list leaves it strictly descending. */
  lemma {:induction false} RemoveOffsetsDescending(s: seq<Url>, offs: set<nat>)
    requires StrictlyDescending(s)
    ensures StrictlyDescending(RemoveOffsets(s, offs))
  {
    if s != [] {
      var n := |s| - 1;
      var init := s[..n];
      assert StrictlyDescending(init) by {
        forall i, j | 0 <= i < j < |init| ensures Below(init[j].name, init[i].name) {
          assert init[i] == s[i] && init[j] == s[j];
        }
      }
      RemoveOffsetsDescending(init, offs);
      RemoveOffsetsMembers(init, offs);
      var p := RemoveOffsets(init, offs);
      if n !in offs {
        var r := p + [s[n]];
        forall a, b | 0 <= a < b < |r| ensures Below(r[b].name, r[a].name) {
          if b == |p| {
            assert r[a] == p[a] && p[a] in p;
            var i :| 0 <= i < n && i !in offs && init[i] == p[a];
            assert r[a] == s[i];
          } else {
            assert r[a] == p[a] && r[b] == p[b];
          }
        }
      }
    }
  }

  /** One more offset adds the URL at it to the targets. */
  lemma TargetsStep(s: seq<Url>, offsets: seq<nat>, k: nat)
    requires k < |offsets|
    requires forall i :: 0 <= i < |offsets| ==> offsets[i] < |s|
    ensures Targets(s, offsets[..k + 1]) == Targets(s, offsets[..k]) + {s[offsets[k]]}
  {
    var a, b := offsets[..k], offsets[..k + 1];
    assert forall i :: 0 <= i < k ==> b[i] == a[i];
    assert s[b[k]] in Targets(s, b);
  }

  lemma NamesInAdd(us: set<Url>, u: Url, loc: Location)
    ensures NamesIn(us + {u}, loc) == NamesIn(us, loc) + (if u.location == loc then {u.name} else {})
  {
  }

  /**
    Deleting the URL at one more offset takes its name out of the entries
    of its own location and leaves the other location as it was.
   */
  lemma RemainingStep(m: Sizes, s: seq<Url>, offsets: seq<nat>, k: nat, loc: Location)
    requires k < |offsets|
    requires forall i :: 0 <= i < |offsets| ==> offsets[i] < |s|
    ensures var u := s[offsets[k]];
      m - NamesIn(Targets(s, offsets[..k + 1]), loc)
      == (if u.location == loc then m - NamesIn(Targets(s, offsets[..k]), loc) - {u.name}
          else m - NamesIn(Targets(s, offsets[..k]), loc))
  {
    var u := s[offsets[k]];
    var done := Targets(s, offsets[..k]);
    TargetsStep(s, offsets, k);
    NamesInAdd(done, u, loc);
  }

  /**
    What survives the removal of `offsets` from a listing of `entries` is a
    listing of the entries whose URLs were not at those offsets.
   */
  lemma {:induction false} SurvivorsAreRemaining(listing: seq<Url>, offsets: seq<nat>, entries: Sizes)
    requires StrictlyDescending(listing)
    requires forall u :: u in listing <==> u.location == Videos && u.name in entries
    requires forall k :: 0 <= k < |offsets| ==> offsets[k] < |listing|
    ensures forall u :: u in RemoveOffsets(listing, IndexSet(offsets)) <==>
      u.location == Videos && u.name in entries && u.name !in NamesIn(Targets(listing, offsets), Videos)
  {
    var offs := IndexSet(offsets);
    var doomed := NamesIn(Targets(listing, offsets), Videos);
    RemoveOffsetsMembers(listing, offs);
    StrictIsDistinct(listing);
    forall u | u in RemoveOffsets(listing, offs) ensures u.name !in doomed {
      var i :| 0 <= i < |listing| && i !in offs && listing[i] == u;
      forall k | 0 <= k < |offsets| ensures listing[offsets[k]].name != u.name {
        assert offsets[k] < i || i < offsets[k];
      }
    }
    forall u: Url | u.location == Videos && u.name in entries && u.name !in doomed
      ensures u in RemoveOffsets(listing, offs)
    {
      assert u in listing;
      var i :| 0 <= i < |listing| && listing[i] == u;
      forall k | 0 <= k < |offsets| ensures offsets[k] != i {
        assert listing[offsets[k]] in Targets(listing, offsets);
      }
    }
  }

  /**
    Deleting the URLs at `offsets` from a directory listed as `listing`, and
    the same offsets from the list, leaves exactly the listing of what remains.
   */
  lemma AlignmentPreserved(listing: seq<Url>, offsets: seq<nat>, entries: Sizes, order: seq<string>)
    requires StrictlyDescending(listing)
    requires forall u :: u in listing <==> u.location == Videos && u.name in entries
    requires forall k :: 0 <= k < |offsets| ==> offsets[k] < |listing|
    requires Enumerates(order, entries - NamesIn(Targets(listing, offsets), Videos))
    ensures RemoveOffsets(listing, IndexSet(offsets)) == SortByNameDesc(UrlsOf(order))
  {
    var rest := RemoveOffsets(listing, IndexSet(offsets));
    var remaining := entries - NamesIn(Targets(listing, offsets), Videos);
    RemoveOffsetsDescending(listing, IndexSet(offsets));
    SurvivorsAreRemaining(listing, offsets, entries);
    ListingOfDirectory(order, remaining);
    DescendingUnique(rest, SortByNameDesc(UrlsOf(order)));
  }

  class GalleryView {
    var videos: seq<Url>
    /** `VideoManager.shared` */
    const store: VideoManager

    constructor (store: VideoManager)
      ensures this.store == store && videos == []
    {
      this.store := store;
      videos := [];
    }

    /** On appearing, the gallery reads the listing once. */
    method OnAppear()
      requires store.fs.Valid()
      modifies this, store.fs
      ensures store.fs.Valid()
      ensures videos == store.fs.Listed()
      ensures store.fs.videos == old(store.fs.videos) && store.fs.order == old(store.fs.order)
      ensures store.fs.temp == old(store.fs.temp) && store.fs.writable == old(store.fs.writable)
      ensures store.fs.videosDirExists == (old(store.fs.videosDirExists) || store.fs.writable)
    {
      videos := store.ListVideos();
    }

    /**
      The `forEach` of `deleteVideo(at:)`: deletes from the store the URL at
      each offset, read from the list, which it leaves as it is.
     */
    method DeleteFromStore(offsets: seq<nat>)
      requires store.fs.Valid()
      requires forall k :: 0 <= k < |offsets| ==> offsets[k] < |videos|
      modifies store.fs
      ensures store.fs.Valid()
      ensures store.fs.videos == old(store.fs.videos) - NamesIn(Targets(videos, offsets), Videos)
      ensures store.fs.temp == old(store.fs.temp) - NamesIn(Targets(videos, offsets), Temporary)
      ensures store.fs.videosDirExists == old(store.fs.videosDirExists)
      ensures store.fs.writable == old(store.fs.writable)
    {
      for k := 0 to |offsets|
        invariant store.fs.Valid()
        invariant store.fs.videosDirExists == old(store.fs.videosDirExists)
        invariant store.fs.writable == old(store.fs.writable)
        invariant store.fs.videos == old(store.fs.videos) - NamesIn(Targets(videos, offsets[..k]), Videos)
        invariant store.fs.temp == old(store.fs.temp) - NamesIn(Targets(videos, offsets[..k]), Temporary)
      {
        var url := videos[offsets[k]];
        RemainingStep(old(store.fs.videos), videos, offsets, k, Videos);
        RemainingStep(old(store.fs.temp), videos, offsets, k, Temporary);
        store.DeleteVideo(url);
      }
      assert offsets[..|offsets|] == offsets;
    }

    /**
      Deletes from the store the URL at each offset, read from the list as it
      was, then removes the same offsets from the list.
     */
    method DeleteVideo(offsets: seq<nat>)
      requires store.fs.Valid()
      requires Ascending(offsets)
      requires forall k :: 0 <= k < |offsets| ==> offsets[k] < |videos|
      modifies this, store.fs
      ensures store.fs.Valid()
      ensures videos == RemoveOffsets(old(videos), IndexSet(offsets))
      ensures |videos| == |old(videos)| - |offsets|
      ensures store.fs.videos == old(store.fs.videos) - NamesIn(Targets(old(videos), offsets), Videos)
      ensures store.fs.temp == old(store.fs.temp) - NamesIn(Targets(old(videos), offsets), Temporary)
      ensures store.fs.videosDirExists == old(store.fs.videosDirExists)
      ensures store.fs.writable == old(store.fs.writable)
      ensures old(videos == store.fs.Listed()) ==> videos == store.fs.Listed()
    {
      ghost var aligned := videos == store.fs.Listed();
      ghost var entries, order := store.fs.videos, store.fs.order;
      DeleteFromStore(offsets);
      ghost var before := videos;
      videos := RemoveOffsets(videos, IndexSet(offsets));
      OffsetsCount(offsets, |before|);
      RemoveOffsetsLength(before, IndexSet(offsets));
      if aligned {
        ListingOfDirectory(order, entries);
        AlignmentPreserved(before, offsets, entries, store.fs.order);
        if !store.fs.videosDirExists {
          assert store.fs.order == [];
        }
      }
    }
  }

  /** An index set within range counts as many offsets as it lists. */
  lemma OffsetsCount(offsets: seq<nat>, n: nat)
    requires Ascending(offsets)
    requires forall k :: 0 <= k < |offsets| ==> offsets[k] < n
    ensures |OffsetsBelow(IndexSet(offsets), n)| == |offsets|
  {
    forall x | x in offsets ensures x < n {
      var k :| 0 <= k < |offsets| && offsets[k] == x;
    }
    assert OffsetsBelow(IndexSet(offsets), n) == IndexSet(offsets);
  }
}
