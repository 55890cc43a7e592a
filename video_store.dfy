/**
  The app's video store, `VideoManager`: the `Videos/` directory is the whole
  database. Each file in it is a recording; its name embeds the time it was
  saved, and its size is the one resource value the app reads.

  `FileSystem` stands for `FileManager.default`, reduced to what the store and
  the camera touch: whether `Videos/` exists, its entries (name to the
  `fileSize` resource value, which may be missing), the order in which
  `contentsOfDirectory` enumerates them, and the temporary directory.
  Whether the volume accepts new directories and files is the `writable` flag.
 */
module VideoStore {
  import opened Wrappers
  import opened StringOrder
  import opened Paths
  import opened Sorting

  type Sizes = map<string, Option<nat>>

  predicate Distinct<T(==)>(s: seq<T>)
  {
    forall i, j :: 0 <= i < j < |s| ==> s[i] != s[j]
  }

  /** `order` enumerates the keys of `entries`, each exactly once. */
  ghost predicate Enumerates(order: seq<string>, entries: Sizes)
  {
    Distinct(order) && forall n :: n in order <==> n in entries
  }

  /** The URLs of `Videos/` entries with the given names, in the same order. */
  function UrlsOf(order: seq<string>): (us: seq<Url>)
    ensures |us| == |order|
    ensures forall i :: 0 <= i < |order| ==> us[i] == Url(Videos, order[i])
  {
    seq(|order|, i requires 0 <= i < |order| => Url(Videos, order[i]))
  }

  /** `s` with every occurrence of `n` taken out, the others in their order. */
  function Without(s: seq<string>, n: string): (r: seq<string>)
    ensures forall x :: x in r <==> x in s && x != n
  {
    if s == [] then []
    else (if s[0] == n then [] else [s[0]]) + Without(s[1..], n)
  }

  lemma {:induction false} WithoutDistinct(s: seq<string>, n: string)
    requires Distinct(s)
    ensures Distinct(Without(s, n))
  {
    if s != [] {
      var t := s[1..];
      assert Distinct(t) by {
        forall i, j | 0 <= i < j < |t| ensures t[i] != t[j] {
          assert t[i] == s[i + 1] && t[j] == s[j + 1];
        }
      }
      WithoutDistinct(t, n);
      var w := Without(t, n);
      if s[0] != n {
        assert s[0] !in t by {
          forall k | 0 <= k < |t| ensures t[k] != s[0] {
            assert t[k] == s[k + 1];
          }
        }
        var r := [s[0]] + w;
        forall i, j | 0 <= i < j < |r| ensures r[i] != r[j] {
          if i == 0 {
            assert r[j] == w[j - 1] && r[j] in w;
          } else {
            assert r[i] == w[i - 1] && r[j] == w[j - 1];
          }
        }
      }
    }
  }

  lemma {:induction false} DistinctCardinality<T>(s: seq<T>)
    requires Distinct(s)
    ensures |set x | x in s| == |s|
  {
    if s != [] {
      var t := s[1..];
      assert Distinct(t) by {
        forall i, j | 0 <= i < j < |t| ensures t[i] != t[j] {
          assert t[i] == s[i + 1] && t[j] == s[j + 1];
        }
      }
      DistinctCardinality(t);
      assert s[0] !in t by {
        forall k | 0 <= k < |t| ensures t[k] != s[0] {
          assert t[k] == s[k + 1];
        }
      }
      assert (set x | x in s) == (set x | x in t) + {s[0]};
    }
  }

  /**
    What `listVideos` shows of a readable directory: its URLs sorted by name,
    strictly descending (string order, not numeric), one per entry, no others.
   */
  lemma ListingOfDirectory(order: seq<string>, entries: Sizes)
    requires Enumerates(order, entries)
    ensures StrictlyDescending(SortByNameDesc(UrlsOf(order)))
    ensures forall u :: u in SortByNameDesc(UrlsOf(order)) <==> u.location == Videos && u.name in entries
    ensures |SortByNameDesc(UrlsOf(order))| == |entries|
  {
    var us := UrlsOf(order);
    assert DistinctNames(us);
    SortedListing(us);
    UrlsOfEntries(order, entries);
    DistinctCardinality(order);
    assert entries.Keys == set x | x in order;
  }

  lemma UrlsOfEntries(order: seq<string>, entries: Sizes)
    requires forall n :: n in order <==> n in entries
    ensures forall u :: u in UrlsOf(order) <==> u.location == Videos && u.name in entries
  {
    var us := UrlsOf(order);
    forall u ensures u in us <==> u.location == Videos && u.name in entries {
      if u.location == Videos && u.name in entries {
        var k :| 0 <= k < |order| && order[k] == u.name;
        assert us[k] == u;
      }
    }
  }

  /**
    The listing does not depend on the order in which the file system
    enumerates the directory.
   */
  lemma ListingIgnoresEnumerationOrder(o1: seq<string>, o2: seq<string>, entries: Sizes)
    requires Enumerates(o1, entries) && Enumerates(o2, entries)
    ensures SortByNameDesc(UrlsOf(o1)) == SortByNameDesc(UrlsOf(o2))
  {
    ListingOfDirectory(o1, entries);
    ListingOfDirectory(o2, entries);
    DescendingUnique(SortByNameDesc(UrlsOf(o1)), SortByNameDesc(UrlsOf(o2)));
  }

  /**
    Names compare as strings, character by character, and not as numbers:
    recordings named 100.mov, 200.mov and 50.mov list as 50.mov, 200.mov,
    100.mov, whatever order the directory enumerates them in.
   */
  lemma ListingIsNotNumeric(order: seq<string>, entries: Sizes)
    requires Enumerates(order, entries)
    requires forall n :: n in entries <==> n == "100.mov" || n == "200.mov" || n == "50.mov"
    ensures SortByNameDesc(UrlsOf(order)) == [Url(Videos, "50.mov"), Url(Videos, "200.mov"), Url(Videos, "100.mov")]
  {
    var expected := [Url(Videos, "50.mov"), Url(Videos, "200.mov"), Url(Videos, "100.mov")];
    CharacterOrder();
    BelowTransitive("100.mov", "200.mov", "50.mov");
    ListingOfDirectory(order, entries);
    forall u ensures u in expected <==> u.location == Videos && u.name in entries {
      assert u in expected <==> u == expected[0] || u == expected[1] || u == expected[2];
    }
    DescendingUnique(SortByNameDesc(UrlsOf(order)), expected);
  }

  /** A leading 1 sorts below a leading 2, which sorts below a leading 5. */
  lemma CharacterOrder()
    ensures Below("200.mov", "50.mov") && Below("100.mov", "200.mov")
  {
  }

  /** The `fileSize` resource value of a recording, 0 when it is missing. */
  function FileSize(u: Url, entries: Sizes): (r: nat)
    ensures r > 0 ==> u.location == Videos && u.name in entries
  {
    if u.location == Videos && u.name in entries then entries[u.name].GetOr(0) else 0
  }

  /** The sum of the file sizes of `files`, accumulated from the first. */
  function TotalBytes(files: seq<Url>, entries: Sizes): (r: nat)
    ensures forall i :: 0 <= i < |files| ==> FileSize(files[i], entries) <= r
  {
    if files == [] then 0
    else TotalBytes(files[..|files| - 1], entries) + FileSize(files[|files| - 1], entries)
  }

  /** The bytes the directory holds, counted entry by entry in no particular order. */
  ghost function DirectoryBytes(entries: Sizes): nat
    decreases |entries|
  {
    if entries == map[] then 0
    else
      var n :| n in entries;
      assert (entries - {n}).Keys == entries.Keys - {n};
      entries[n].GetOr(0) + DirectoryBytes(entries - {n})
  }

  /** Taking out any one entry takes out exactly its size. */
  lemma {:induction false} DirectoryBytesRemove(entries: Sizes, n: string)
    requires n in entries
    ensures DirectoryBytes(entries) == entries[n].GetOr(0) + DirectoryBytes(entries - {n})
    decreases |entries|
  {
    var m :| m in entries && DirectoryBytes(entries) == entries[m].GetOr(0) + DirectoryBytes(entries - {m});
    if m != n {
      assert (entries - {m}).Keys == entries.Keys - {m};
      assert (entries - {n}).Keys == entries.Keys - {n};
      DirectoryBytesRemove(entries - {m}, n);
      DirectoryBytesRemove(entries - {n}, m);
      assert entries - {m} - {n} == entries - {n} - {m};
    }
  }

  /** Saving a new entry adds its size to the total. */
  lemma BytesAfterAdd(entries: Sizes, n: string, size: Option<nat>)
    requires n !in entries
    ensures DirectoryBytes(entries[n := size]) == DirectoryBytes(entries) + size.GetOr(0)
  {
    DirectoryBytesRemove(entries[n := size], n);
    assert entries[n := size] - {n} == entries;
  }

  lemma {:induction false} TotalBytesAgree(files: seq<Url>, e1: Sizes, e2: Sizes)
    requires forall u :: u in files ==> FileSize(u, e1) == FileSize(u, e2)
    ensures TotalBytes(files, e1) == TotalBytes(files, e2)
  {
    if files != [] {
      TotalBytesAgree(files[..|files| - 1], e1, e2);
    }
  }

  /**
    Summing the sizes of the listed files, in any enumeration of the
    directory, gives the bytes the directory holds.
   */
  lemma {:induction false} TotalMatchesDirectory(files: seq<Url>, entries: Sizes)
    requires DistinctNames(files)
    requires forall u :: u in files <==> u.location == Videos && u.name in entries
    ensures TotalBytes(files, entries) == DirectoryBytes(entries)
    decreases |files|
  {
    assert forall n :: n in entries ==> Url(Videos, n) in files;
    if files == [] {
      assert entries.Keys == {};
    } else {
      var last := files[|files| - 1];
      var init := files[..|files| - 1];
      var rest := entries - {last.name};
      assert DistinctNames(init) by {
        forall i, j | 0 <= i < j < |init| ensures init[i].name != init[j].name {
          assert init[i] == files[i] && init[j] == files[j];
        }
      }
      forall u ensures u in init <==> u.location == Videos && u.name in rest {
        if u in init {
          var k :| 0 <= k < |init| && init[k] == u;
          assert files[k] == u && k < |files| - 1;
        }
        if u.location == Videos && u.name in rest {
          assert u in files;
          var k :| 0 <= k < |files| && files[k] == u;
          assert k != |files| - 1;
          assert init[k] == u;
        }
      }
      TotalMatchesDirectory(init, rest);
      TotalBytesAgree(init, entries, rest);
      assert last in files;
      DirectoryBytesRemove(entries, last.name);
    }
  }

  class FileSystem {
    var videosDirExists: bool
    var writable: bool
    var videos: Sizes
    var order: seq<string>
    var temp: Sizes

    ghost predicate Valid()
      reads this
    {
      Enumerates(order, videos) && (!videosDirExists ==> videos == map[])
    }

    /** A fresh installation: no `Videos/` yet; `temp` is whatever is in the temporary directory. */
    constructor (writable: bool, temp: Sizes)
      ensures Valid()
      ensures !videosDirExists && videos == map[] && order == []
      ensures this.writable == writable && this.temp == temp
    {
      this.writable := writable;
      this.temp := temp;
      videosDirExists := false;
      videos := map[];
      order := [];
    }

    predicate Exists(u: Url)
      reads this
    {
      match u.location
      case Videos => u.name in videos
      case Temporary => u.name in temp
    }

    /** The `fileSize` resource value of an existing file. */
    function Entry(u: Url): Option<nat>
      requires Exists(u)
      reads this
    {
      match u.location
      case Videos => videos[u.name]
      case Temporary => temp[u.name]
    }

    /** The enumeration of `Videos/`, none when it cannot be read. */
    function Contents(): (r: Option<seq<Url>>)
      reads this
      ensures r.Some? <==> videosDirExists
      ensures r.Some? ==> |r.value| == |order|
    {
      if videosDirExists then Some(UrlsOf(order)) else None
    }

    /** What `listVideos` returns in this state. */
    function Listed(): (r: seq<Url>)
      reads this
      ensures !videosDirExists ==> r == []
      ensures videosDirExists ==> NonIncreasing(r) && multiset(r) == multiset(UrlsOf(order))
    {
      match Contents()
      case None => []
      case Some(contents) => SortByNameDesc(contents)
    }

    /** Creates `Videos/` and any missing parent; fails when the volume takes no new directories. */
    method CreateVideosDirectory() returns (ok: bool)
      requires Valid()
      modifies this
      ensures Valid()
      ensures ok == writable && videosDirExists == (old(videosDirExists) || ok)
      ensures writable == old(writable) && videos == old(videos) && order == old(order) && temp == old(temp)
    {
      ok := writable;
      if ok {
        videosDirExists := true;
      }
    }

    /** Copies a file: fails when the source is missing, the destination exists, its directory is missing or the volume takes no new files. */
    method CopyItem(src: Url, dst: Url) returns (ok: bool)
      requires Valid()
      modifies this
      ensures Valid()
      ensures ok <==> old(Exists(src)) && !old(Exists(dst)) && (dst.location == Videos ==> videosDirExists) && writable
      ensures videosDirExists == old(videosDirExists) && writable == old(writable)
      ensures !ok ==> videos == old(videos) && order == old(order) && temp == old(temp)
      ensures ok && dst.location == Videos ==>
        videos == old(videos)[dst.name := old(Entry(src))] && order == old(order) + [dst.name] && temp == old(temp)
      ensures ok && dst.location == Temporary ==>
        temp == old(temp)[dst.name := old(Entry(src))] && videos == old(videos) && order == old(order)
    {
      ok := Exists(src) && !Exists(dst) && (dst.location == Videos ==> videosDirExists) && writable;
      if ok {
        var size := Entry(src);
        if dst.location == Videos {
          videos := videos[dst.name := size];
          order := order + [dst.name];
        } else {
          temp := temp[dst.name := size];
        }
      }
    }

    /** Removes a file: fails when there is nothing there. */
    method RemoveItem(u: Url) returns (ok: bool)
      requires Valid()
      modifies this
      ensures Valid()
      ensures ok == old(Exists(u)) && !Exists(u)
      ensures videosDirExists == old(videosDirExists) && writable == old(writable)
      ensures u.location == Videos ==>
        videos == old(videos) - {u.name} && order == Without(old(order), u.name) && temp == old(temp)
      ensures u.location == Temporary ==>
        temp == old(temp) - {u.name} && videos == old(videos) && order == old(order)
    {
      ok := Exists(u);
      if u.location == Videos {
        WithoutDistinct(order, u.name);
        videos := videos - {u.name};
        order := Without(order, u.name);
      } else {
        temp := temp - {u.name};
      }
    }
  }

  class VideoManager {
    const fs: FileSystem

    constructor (fs: FileSystem)
      ensures this.fs == fs
    {
      this.fs := fs;
    }

    /** Creates `Videos/` only when it is absent; a failure to create it is swallowed. */
    method EnsureDirectoryExists()
      requires fs.Valid()
      modifies fs
      ensures fs.Valid()
      ensures fs.videosDirExists == (old(fs.videosDirExists) || fs.writable)
      ensures old(fs.videosDirExists) ==> unchanged(fs)
      ensures fs.writable == old(fs.writable) && fs.videos == old(fs.videos)
      ensures fs.order == old(fs.order) && fs.temp == old(fs.temp)
    {
      if !fs.videosDirExists {
        var _ := fs.CreateVideosDirectory();
      }
    }

    /**
      Copies the recording at `tempURL` into `Videos/` as `video-<stamp>.mov`
      and returns where it went, or nil when the copy fails.
     */
    method SaveVideo(tempURL: Url, stamp: string) returns (r: Option<Url>)
      requires fs.Valid()
      modifies fs
      ensures fs.Valid()
      ensures fs.videosDirExists == (old(fs.videosDirExists) || fs.writable)
      ensures r.Some? <==>
        old(fs.Exists(tempURL)) && VideoName(stamp) !in old(fs.videos) && fs.writable
      ensures r.Some? ==> r.value == Url(Videos, VideoName(stamp))
      ensures r.Some? ==> fs.videos == old(fs.videos)[VideoName(stamp) := old(fs.Entry(tempURL))]
      ensures r.Some? ==> fs.order == old(fs.order) + [VideoName(stamp)]
      ensures r.Some? ==> r.value in fs.Listed()
      ensures r.None? ==> fs.videos == old(fs.videos) && fs.order == old(fs.order)
      ensures fs.writable == old(fs.writable) && fs.temp == old(fs.temp)
    {
      EnsureDirectoryExists();
      var destination := Url(Videos, VideoName(stamp));
      var ok := fs.CopyItem(tempURL, destination);
      r := if ok then Some(destination) else None;
      if ok {
        ListingOfDirectory(fs.order, fs.videos);
      }
    }

    /**
      The URLs of `Videos/`, newest name first in string order; empty when
      the directory cannot be read.
     */
    method ListVideos() returns (r: seq<Url>)
      requires fs.Valid()
      modifies fs
      ensures fs.Valid()
      ensures fs.videosDirExists == (old(fs.videosDirExists) || fs.writable)
      ensures fs.writable == old(fs.writable) && fs.videos == old(fs.videos)
      ensures fs.order == old(fs.order) && fs.temp == old(fs.temp)
      ensures r == fs.Listed()
      ensures !fs.videosDirExists ==> r == []
      ensures fs.videosDirExists ==> multiset(r) == multiset(UrlsOf(fs.order))
      ensures StrictlyDescending(r)
      ensures forall u :: u in r <==> u.location == Videos && u.name in fs.videos
      ensures |r| == |fs.videos|
    {
      EnsureDirectoryExists();
      var contents := fs.Contents();
      r := match contents
        case None => []
        case Some(c) => SortByNameDesc(c);
      ListingOfDirectory(fs.order, fs.videos);
    }

    /** Removes the file at `url`, if there is one; a failure is swallowed. */
    method DeleteVideo(url: Url)
      requires fs.Valid()
      modifies fs
      ensures fs.Valid()
      ensures !fs.Exists(url)
      ensures fs.videosDirExists == old(fs.videosDirExists) && fs.writable == old(fs.writable)
      ensures url.location == Videos ==> fs.videos == old(fs.videos) - {url.name} && fs.temp == old(fs.temp)
      ensures url.location == Temporary ==> fs.temp == old(fs.temp) - {url.name} && fs.videos == old(fs.videos)
      ensures url !in fs.Listed()
      ensures forall u :: u != url ==> (u in fs.Listed() <==> u in old(fs.Listed()))
    {
      ListingOfDirectory(fs.order, fs.videos);
      var _ := fs.RemoveItem(url);
      ListingOfDirectory(fs.order, fs.videos);
    }

    /**
      The bytes used by the recordings: the sum of the sizes of the listed
      files, a missing size counting as 0.
     */
    method CalculateStorageUsed() returns (total: nat)
      requires fs.Valid()
      modifies fs
      ensures fs.Valid()
      ensures fs.videosDirExists == (old(fs.videosDirExists) || fs.writable)
      ensures fs.writable == old(fs.writable) && fs.videos == old(fs.videos)
      ensures fs.order == old(fs.order) && fs.temp == old(fs.temp)
      ensures total == DirectoryBytes(fs.videos)
      ensures fs.videos == map[] ==> total == 0
    {
      EnsureDirectoryExists();
      var files := ListVideos();
      total := TotalBytes(files, fs.videos);
      StrictIsDistinct(files);
      TotalMatchesDirectory(files, fs.videos);
    }
  }
}
