/**
  File locations the app touches: the app's `Videos/` directory under its
  documents directory, and the system temporary directory where a recording
  is written first. A URL is a directory plus a last path component.
 */
module Paths {
  import opened StringOrder

  datatype Location = Videos | Temporary

  datatype Url = Url(location: Location, name: string)

  /** The fixed file every recording is written to before it is saved. */
  const TempUrl := Url(Temporary, "temp.mov")

  /** The file name `saveVideo` gives a recording made at time `stamp`. */
  function VideoName(stamp: string): (n: string)
    ensures |n| == |stamp| + 10
    ensures n[..6] == "video-" && n[6..|n| - 4] == stamp && n[|n| - 4..] == ".mov"
  {
    "video-" + stamp + ".mov"
  }

  /** Distinct time stamps give distinct file names. */
  lemma VideoNameInjective(a: string, b: string)
    requires VideoName(a) == VideoName(b)
    ensures a == b
  {
    var n := VideoName(a);
    assert a == n[6..|n| - 4];
  }

  /**
    Names made from time stamps of one width compare as the stamps do; with
    `FixedWidthOrder`, whole-second stamps of one width list newest first.
   */
  lemma VideoNameOrder(a: string, b: string)
    requires |a| == |b|
    ensures Below(VideoName(a), VideoName(b)) <==> Below(a, b)
  {
    assert VideoName(a) == "video-" + (a + ".mov");
    assert VideoName(b) == "video-" + (b + ".mov");
    BelowCommonPrefix("video-", a + ".mov", b + ".mov");
    BelowCommonSuffix(a, b, ".mov");
  }
}
