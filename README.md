# MyVideoDiary (FaceApp): a verified model of the video store, the recorder and the gallery

The app records short front-camera clips and keeps them as files. This project
models the three parts of it that hold logic of their own, each in the form the
app gives it:

- **The video store (`VideoManager`).** The `Videos/` directory under the app's
  documents directory is the whole database.
  - `FileSystem` is a class that stands for `FileManager.default`. It holds:
    - whether `Videos/` exists;
    - its entries, a map from file name to the optional `fileSize` resource value;
    - the order in which the directory enumerates those entries;
    - the temporary directory;
    - a `writable` flag that says whether new directories and files can be created.
  - `VideoManager` holds `ensureDirectoryExists`, `saveVideo`, `listVideos`,
    `deleteVideo` and `calculateStorageUsed`. Each is a method on that state.
  - The listing is the pure function `SortByNameDesc` of the directory contents.
    The storage total is the pure function `TotalBytes`.
- **The recorder (`CameraModel`) and the countdown (`CameraView.startCountdown`).**
  - `isRecording` guards `startRecording` and `stopRecording`.
  - Time is not modelled. The firing of the t-th scheduled repeating timer is
    the event `Tick(t)`. An invalidated timer does nothing.
  - The stop queued five seconds after a recording starts is the event
    `DelayedStop()`.
  - `fileOutput` hands a finished file to the store only when there was no error.
- **Gallery deletion (`GalleryView.deleteVideo(at:)`).**
  - It deletes from the store the URL at each swiped offset, read from the
    in-memory list.
  - It then removes the same offsets from that list.
  - The model proves that the list, if it equalled the store's listing before,
    equals it afterwards.

Files:
- `string_order.dfy`: Swift's `<` on names, as lexicographic order on characters.
- `paths.dfy`: locations, URLs and the `video-<stamp>.mov` file name.
- `sorting.dfy`: the sort used by `listVideos`.
- `video_store.dfy`: the file system and `VideoManager`.
- `camera.dfy`: `CameraModel`, `CameraView` and event scenarios.
- `gallery.dfy`: `GalleryView` and removal at offsets.
- `wrappers.dfy`: `Option`.

**String order, not numeric.** The code compares names as strings, so a
directory holding `100.mov`, `200.mov` and `50.mov` lists as `50.mov`,
`200.mov`, `100.mov`; `VideoStore.ListingIsNotNumeric` proves it.

How far "descending name" means "newest first":
- `StringOrder.FixedWidthOrder` and `Paths.VideoNameOrder` show that it does
  for stamps that are digit strings, or names, of one common width.
- The app's stamp is the decimal rendering of a `Double`: the whole seconds,
  a `.` and a fraction whose length varies from save to save. Two such names
  usually differ in length, so neither lemma applies to them as saved. The
  model does not render the stamp, and makes no claim about their order.
- Stamps of different widths compare as strings, not as times.

## Model

| member | source | states |
|---|---|---|
| StringOrder.Below | FaceApp/VideoManager.swift:45 | Swift's `<` on names, character by character; a proper prefix is below each of its extensions |
| StringOrder.BelowTotal | FaceApp/VideoManager.swift:45 | any two different names are ordered one way or the other by the comparison the sort uses |
| StringOrder.BelowTransitive | FaceApp/VideoManager.swift:45 | the name comparison is transitive, so the sort's order is consistent |
| StringOrder.BelowAsymmetric | FaceApp/VideoManager.swift:45 | no two names are each below the other |
| StringOrder.FixedWidthOrder | FaceApp/VideoManager.swift:45 | for digit strings of one width, string order is numeric order, in both directions |
| StringOrder.LeadingDigit | FaceApp/VideoManager.swift:45 | among numbers of one width, a smaller leading digit gives a smaller number |
| Paths.VideoNameInjective | FaceApp/VideoManager.swift:32 | different stamps never give the same file name |
| Paths.VideoNameOrder | FaceApp/VideoManager.swift:32 | names from stamps of one width compare exactly as the stamps do |
| Sorting.Insert | FaceApp/VideoManager.swift:45 | inserting into a non-increasing list keeps it non-increasing and adds exactly that one element |
| Sorting.SortByNameDesc | FaceApp/VideoManager.swift:45 | the result is in non-increasing name order and is a permutation of the input |
| Sorting.SortedListing | FaceApp/VideoManager.swift:44-45 | for URLs with distinct names, the sort is strictly descending, has the same length and holds exactly the given URLs |
| Sorting.DescendingUnique | FaceApp/VideoManager.swift:44-45 | two strictly descending lists with the same elements are equal, so the listing does not depend on the sort algorithm |
| Sorting.StrictWhenDistinct | FaceApp/VideoManager.swift:45 | a sorted list without repeated names is strictly descending |
| VideoStore.ListingOfDirectory | FaceApp/VideoManager.swift:44-45 | the listing of a readable directory is strictly descending and holds exactly one URL per entry, and no other URL |
| VideoStore.ListingIgnoresEnumerationOrder | FaceApp/VideoManager.swift:44-45 | any two enumerations of the same directory give the same listing |
| VideoStore.ListingIsNotNumeric | FaceApp/VideoManager.swift:45 | a directory holding 100.mov, 200.mov and 50.mov, enumerated in any order, lists as 50.mov, 200.mov, 100.mov |
| VideoStore.FileSize | FaceApp/VideoManager.swift:55 | a file's size as the reduce reads it: only an existing entry of `Videos/` can have a non-zero size, and a missing size counts as 0 |
| VideoStore.TotalBytes | FaceApp/VideoManager.swift:55 | the reduce's running sum from the first file; it is at least the size of each file summed |
| VideoStore.DirectoryBytesRemove | FaceApp/VideoManager.swift:55 | the bytes a directory holds are any one entry's size, counting a missing size as 0, plus the bytes of the other entries |
| VideoStore.BytesAfterAdd | FaceApp/VideoManager.swift:55 | a newly saved entry adds exactly its size to the bytes the directory holds |
| VideoStore.TotalMatchesDirectory | FaceApp/VideoManager.swift:54-55 | summing the sizes of the listed files, counting a missing size as 0, gives the bytes the directory holds, whatever the list's order |
| VideoStore.FileSystem.Contents | FaceApp/VideoManager.swift:44 | `contentsOfDirectory` as a `try?`: nil exactly when `Videos/` does not exist, otherwise one URL per enumerated entry |
| VideoStore.FileSystem.Listed | FaceApp/VideoManager.swift:44-45 | what `listVideos` returns in a state: empty without `Videos/`, otherwise the directory's URLs as a non-increasing permutation |
| VideoStore.FileSystem.CreateVideosDirectory | FaceApp/VideoManager.swift:26 | creating `Videos/` succeeds exactly when the volume takes new directories; the entries are untouched |
| VideoStore.FileSystem.CopyItem | FaceApp/VideoManager.swift:34 | a copy succeeds exactly when the source exists, the destination is free, its directory exists and the volume takes new files; it then adds the destination with the source's size |
| VideoStore.FileSystem.RemoveItem | FaceApp/VideoManager.swift:49 | a removal succeeds exactly when the file exists; afterwards the file is gone, and nothing else is |
| VideoStore.VideoManager.EnsureDirectoryExists | FaceApp/VideoManager.swift:23-28 | afterwards `Videos/` exists when it already did or could be created; an existing directory is left exactly as it was, so a second call changes nothing |
| VideoStore.VideoManager.SaveVideo | FaceApp/VideoManager.swift:30-40 | it returns `Videos/video-<stamp>.mov` exactly when the recording exists, the name is new and the volume takes files. The entry then has the recording's size and appears in the listing. Otherwise it returns nil and the entries are unchanged |
| VideoStore.VideoManager.ListVideos | FaceApp/VideoManager.swift:42-46 | the result is strictly descending by name and a permutation of the directory's contents, one URL per entry; it is empty when `Videos/` cannot be read |
| VideoStore.VideoManager.DeleteVideo | FaceApp/VideoManager.swift:48-50 | afterwards the URL does not exist and is not listed; every other URL is listed exactly when it was before; only that one entry is removed |
| VideoStore.VideoManager.CalculateStorageUsed | FaceApp/VideoManager.swift:52-55 | the total is the bytes the directory holds, a missing size counting as 0; it is 0 for an empty store |
| Camera.CameraModel.constructor | FaceApp/CameraView.swift:97-98 | a new model is not recording, its session is not running and it has started and stopped nothing |
| Camera.CameraModel.SessionStarted | FaceApp/CameraView.swift:146 | the session runs afterwards; the recording state is untouched |
| Camera.CameraModel.StartRecording | FaceApp/CameraView.swift:150-157 | it does nothing while recording. Otherwise it raises `isRecording`, removes any stale `temp.mov` and starts exactly one write, to `temp.mov`; the store's entries are untouched |
| Camera.CameraModel.StopRecording | FaceApp/CameraView.swift:159-163 | it does nothing while not recording. Otherwise it tells the output to stop exactly once, and `isRecording` is false at once |
| Camera.CameraModel.StopSession | FaceApp/CameraView.swift:165-169 | the session is stopped afterwards; a call on a stopped session changes nothing |
| Camera.CameraModel.FileOutput | FaceApp/CameraView.swift:172-180 | with an error nothing changes and nothing is saved. Without one the file is saved once under the stamp's name, exactly when `saveVideo` can succeed, and is appended to the directory; `Videos/` exists afterwards when it did or the volume is writable; the temporary directory and the volume's writability are untouched |
| Camera.LiveInvalidate | FaceApp/CameraView.swift:84 | invalidating a running timer leaves exactly one running timer fewer |
| Camera.LiveAppend | FaceApp/CameraView.swift:81 | scheduling a timer adds one running timer |
| Camera.CameraView.constructor | FaceApp/CameraView.swift:17-18 | a new view shows no countdown, its counter at 3, with no timer and no stop queued, so it starts `Disciplined` |
| Camera.CameraView.StartCountdown | FaceApp/CameraView.swift:77-81 | ignored while recording; otherwise it shows the counter at 3 and schedules one more repeating timer, even when a countdown is already running |
| Camera.CameraView.Tick | FaceApp/CameraView.swift:81-91 | a running timer's tick lowers the counter by one. The tick that reaches 0 invalidates that timer, hides the counter, starts a recording if none runs and queues exactly one delayed stop. A tick of an invalidated timer changes nothing. A tick keeps `Disciplined`: at most one timer runs, and it runs exactly while the counter shows 1 to 3 |
| Camera.CameraView.DelayedStop | FaceApp/CameraView.swift:89-91 | a queued stop calls `stopRecording` once and is consumed; with none queued nothing changes. The counter, the timers, the recordings made and the session are untouched, and `Disciplined` is kept |
| Camera.CameraView.StartCountdownGuarded | FaceApp/CameraView.swift:77-80 | the countdown start as evidently intended: also ignored while a countdown runs, so at most one timer ever runs |
| Camera.SingleCountdown | FaceApp/CameraView.swift:77-94 | one tap, three ticks and the delayed stop start and stop exactly one recording and leave no timer running |
| Camera.TapTwiceThenRecord | FaceApp/CameraView.swift:77-91 | tap, tick, a second tap and ticks of both timers start one recording and leave the second timer running with the counter at -1 |
| Camera.DoubleTapDuringCountdown | FaceApp/CameraView.swift:78-84 | after a second tap during a countdown and one recording, any number n of further ticks leave that timer running, with the counter at -1-n and no second recording |
| Camera.DoubleTapGuarded | FaceApp/CameraView.swift:77-94 | with the guarded start, the same taps start one recording and leave no timer running |
| Camera.RecordAndSave | FaceApp/CameraView.swift:172-180 | countdown, recording, stop and an error-free completion leave exactly the new recording in the listing |
| Gallery.IndexSet | FaceApp/GalleryView.swift:65 | the index set of offsets listed in ascending order has exactly as many members as the list |
| Gallery.OffsetsCount | FaceApp/GalleryView.swift:65 | an index set within range counts as many indices as it lists |
| Gallery.RemoveOffsets | FaceApp/GalleryView.swift:70 | `remove(atOffsets:)`: the result is no longer than the list, and every element at an index not removed is in it |
| Gallery.RemoveOffsetsLength | FaceApp/GalleryView.swift:70 | removal at offsets shortens the list by the number of offsets within range |
| Gallery.RemoveOffsetsPrefix | FaceApp/GalleryView.swift:70 | what survives from a prefix is a prefix of what survives from the whole list |
| Gallery.RemoveOffsetsKeeps | FaceApp/GalleryView.swift:70 | every element at an index not removed survives, at the position given by the survivors before it |
| Gallery.RemoveOffsetsOrder | FaceApp/GalleryView.swift:70 | survivors keep their relative order |
| Gallery.RemoveOffsetsMembers | FaceApp/GalleryView.swift:70 | an element survives exactly when it stood at some index not removed; nothing is added |
| Gallery.RemoveOffsetsDescending | FaceApp/GalleryView.swift:70 | removal at offsets keeps a strictly descending list strictly descending |
| Gallery.SurvivorsAreRemaining | FaceApp/GalleryView.swift:65-71 | removing the offsets from a listing leaves exactly the URLs of the entries that were not at those offsets |
| Gallery.AlignmentPreserved | FaceApp/GalleryView.swift:65-71 | removing the offsets from a listing gives exactly the listing of the directory with those offsets' files deleted |
| Gallery.Targets | FaceApp/GalleryView.swift:67 | the URLs read from the list at the offsets; each is an element of the list |
| Gallery.TargetsStep | FaceApp/GalleryView.swift:66-68 | each step of the loop adds the URL at the next offset to the URLs deleted so far |
| Gallery.RemainingStep | FaceApp/GalleryView.swift:66-68 | each deleted URL takes its name out of its own location's entries and leaves the other location's entries as they were |
| Gallery.GalleryView.constructor | FaceApp/GalleryView.swift:20 | the list starts empty |
| Gallery.GalleryView.OnAppear | FaceApp/GalleryView.swift:59-61 | the list becomes the store's listing; the entries, their enumeration order, the temporary directory and the volume's writability are untouched; `Videos/` exists afterwards when it did or the volume is writable |
| Gallery.GalleryView.DeleteFromStore | FaceApp/GalleryView.swift:66-69 | the store loses exactly the files at the offsets, read from the list; the list, `Videos/` and the volume's writability are unchanged |
| Gallery.GalleryView.DeleteVideo | FaceApp/GalleryView.swift:65-71 | the store loses exactly the files at the offsets; the list loses exactly those offsets and becomes shorter by their number. A list that equalled the store's listing before still equals it after. `Videos/` and the volume's writability are unchanged |

## Left out

- `CameraModel.configure` and `checkPermissions` (FaceApp/CameraView.swift:104-148) are left out. They only attach devices and inputs through AVFoundation. The one effect the model keeps is that the session starts running, as `SessionStarted`.
- `CameraView`'s `onAppear` calls `checkPermissions` and `configure`, which are left out as above. Its `onDisappear` is `StopSession`.
- Real time, `Timer` and dispatch queues are not modelled. Timer firings and the delayed stop are the events `Tick(t)` and `DelayedStop()`. Any order of events a caller chooses is allowed, including the completion callback before the stop.
- The movie output writing `temp.mov` is not modelled inside `CameraModel`. In `RecordAndSave` the file appears in the temporary directory as a step of the scenario.
- The completion callback is called by AVFoundation on its own queue. In the model `FileOutput` is a call, its `failed` flag stands for the error, and the recorded URL is a parameter.
- VideoStore.VideoManager.CalculateStorageUsed: returns the integer byte total. The conversion to megabytes and the `%.2f MB` formatting (FaceApp/VideoManager.swift:56-57) are floating point and not modelled.
- Paths.VideoName: the stamp is a parameter. `Date().timeIntervalSince1970` is a clock read, and its decimal rendering is not modelled.
- VideoStore.TotalBytes: the sum is an unbounded natural number. Swift's `Int` addition in the reduce traps on overflow, which the model does not represent.
- VideoStore.TotalBytes: a `resourceValues` call that throws makes the source's force-unwrap crash (FaceApp/VideoManager.swift:55). The model does not represent this, because every listed file exists in it. A present entry whose `fileSize` is missing counts as 0, as in the source.
- VideoStore.FileSystem.RemoveItem: fails only when nothing is there. Permission errors and locked files are not modelled.
- `videosDirectory()` (FaceApp/VideoManager.swift:18-21) is the location `Videos`. The path of the documents directory is not modelled.
- StringOrder.Below: compares characters by code point. Swift compares strings by their Unicode canonical form. The two agree on the ASCII names the app creates, and normalisation is not modelled.
- Sorting.SortByNameDesc: for equal names, the order it produces is that of this insertion sort, not Swift's. The two cannot differ on a listing, because a directory's entries have distinct names.
- Gallery.GalleryView.DeleteVideo requires offsets in ascending order and within the list. A SwiftUI `IndexSet` is always ascending. An offset outside the list would crash the source.
- `ContentView`, `CameraPreview`, `ThumbnailView`, `VideoPlayerView` and all view bodies are presentation and not modelled.

## Findings

| source | as written | input that shows it | evidently intended | confidence | as-written member | corrected member |
|---|---|---|---|---|---|---|
| FaceApp/CameraView.swift:78 | `startCountdown` refuses to start only while recording, not while a countdown runs | tap, tick of timer 0, tap again, then ticks of timers 0, 1, 0, 1 | a tap during a countdown is ignored, so only one timer ever runs | not executed | Camera.DoubleTapDuringCountdown | Camera.CameraView.StartCountdownGuarded |

In the event sequence above, the second tap resets the counter to 3 and schedules a
second repeating timer. Both timers lower the same counter. The one that
brings it to 0 is invalidated and starts the recording. The other takes the
counter to -1 and never meets 0 again, so it is never invalidated and keeps
firing. `Camera.CameraView.StartCountdownGuarded` also refuses while
`isCountingDown`. It keeps `Disciplined`: at most one timer runs, exactly
while the counter shows, and the counter then reads 1, 2 or 3. `Tick` and
`DelayedStop` preserve that invariant. `Camera.DoubleTapGuarded` replays the
taps against the corrected start.
