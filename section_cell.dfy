/**
 * The download-status logic of the course-section table cell: the classifier
 * that turns the download states of a section's videos into the state of the
 * cell's download accessory, the filter it relies on, and the small decision
 * rules that read the classifier's answer (accessory display, tap on the
 * accessory, swipe-to-delete).
 */
module CourseSectionCell {
  import opened Wrappers

  // ---------------------------------------------------------------------------
  // Data model
  // ---------------------------------------------------------------------------

  /** The download state of one video. Only `Partial` and `Complete` are ever
      tested by the cell; `New` stands for every other state (not started). */
  datatype DownloadState = New | Partial | Complete

  /** A video download record. The cell never looks at anything but the
      download state; `id` keeps records distinguishable so that "in the
      original order" means something. */
  datatype Video = Video(id: nat, downloadState: DownloadState)

  /** The state shown by the cell's download accessory. */
  datatype AccessoryState = Available | Downloading | Done

  /** Which side of the row the user swiped from. */
  datatype SwipeOrientation = Left | Right

  /** Size of the trash icon on the delete action. */
  const TrashIconSize: nat := 30

  /** The one swipe action the cell offers: delete the downloaded videos,
      with no title and a trash icon of the given size. */
  datatype SwipeAction = DeleteDownloadedVideos(title: Option<string>, iconSize: nat)

  /** What the cell puts at the trailing edge of its row when the accessory
      is visible: the accessory's state and the number of videos it counts. */
  datatype Accessory = Accessory(state: AccessoryState, itemCount: nat)

  // ---------------------------------------------------------------------------
  // Specification vocabulary
  // ---------------------------------------------------------------------------

  /** Every video in `videos` is in state `s`. */
  ghost predicate AllIn(videos: seq<Video>, s: DownloadState)
  {
    forall v :: v in videos ==> v.downloadState == s
  }

  /** Some video in `videos` is neither complete nor partially downloaded. */
  ghost predicate SomeNotStarted(videos: seq<Video>)
  {
    exists v :: v in videos && v.downloadState != Complete && v.downloadState != Partial
  }

  /** The set of download states that occur in `videos`. */
  ghost function StatesOf(videos: seq<Video>): set<DownloadState>
  {
    set v | v in videos :: v.downloadState
  }

  // ---------------------------------------------------------------------------
  // `reduce(true) { acc && video.downloadState == s }`
  // ---------------------------------------------------------------------------

  /** The left fold the classifier uses twice: starting from `acc`, conjoin
      "this video is in state `s`" for every video, front to back. */
  function ReduceAllInState(acc: bool, videos: seq<Video>, s: DownloadState): (r: bool)
    ensures r <==> acc && forall i :: 0 <= i < |videos| ==> videos[i].downloadState == s
    decreases |videos|
  {
    if |videos| == 0 then acc
    else ReduceAllInState(acc && videos[0].downloadState == s, videos[1..], s)
  }

  // ---------------------------------------------------------------------------
  // filterVideos
  // ---------------------------------------------------------------------------

  /** The videos whose download is not complete, in their original order. */
  function Incomplete(videos: seq<Video>): (r: seq<Video>)
    ensures |r| <= |videos|
    ensures forall i :: 0 <= i < |r| ==> r[i].downloadState != Complete
  {
    if |videos| == 0 then []
    else if videos[0].downloadState != Complete then [videos[0]] + Incomplete(videos[1..])
    else Incomplete(videos[1..])
  }

  /** Filtering distributes over concatenation: the filter keeps the relative
      order of the videos it keeps. */
  lemma {:induction false} IncompleteAppend(a: seq<Video>, b: seq<Video>)
    ensures Incomplete(a + b) == Incomplete(a) + Incomplete(b)
    decreases |a|
  {
    if |a| == 0 {
      assert a + b == b;
    } else {
      assert (a + b)[0] == a[0];
      assert (a + b)[1..] == a[1..] + b;
      IncompleteAppend(a[1..], b);
    }
  }

  /** A video is kept exactly when it is in the input and not complete. */
  lemma {:induction false} IncompleteMembers(videos: seq<Video>, v: Video)
    ensures v in Incomplete(videos) <==> v in videos && v.downloadState != Complete
    decreases |videos|
  {
    if |videos| > 0 {
      IncompleteMembers(videos[1..], v);
      assert videos == [videos[0]] + videos[1..];
    }
  }

  /** A list with no complete video passes the filter unchanged. */
  lemma {:induction false} IncompleteKeepsAllIncomplete(videos: seq<Video>)
    requires forall v :: v in videos ==> v.downloadState != Complete
    ensures Incomplete(videos) == videos
    decreases |videos|
  {
    if |videos| > 0 {
      assert videos[0] in videos;
      assert forall v :: v in videos[1..] ==> v in videos;
      IncompleteKeepsAllIncomplete(videos[1..]);
      assert videos == [videos[0]] + videos[1..];
    }
  }

  /** The loop of `filterVideos`: walk the videos in order and append each
      one whose download is not complete to a local list. */
  method FilterVideos(videos: seq<Video>) returns (incompleteVideos: seq<Video>)
    ensures incompleteVideos == Incomplete(videos)
  {
    incompleteVideos := [];
    var i := 0;
    while i < |videos|
      invariant 0 <= i <= |videos|
      invariant incompleteVideos == Incomplete(videos[..i])
    {
      var video := videos[i];
      IncompleteAppend(videos[..i], [video]);
      assert videos[..i + 1] == videos[..i] + [video];
      if video.downloadState != Complete {
        incompleteVideos := incompleteVideos + [video];
      }
      i := i + 1;
    }
    assert videos[..i] == videos;
  }

  // ---------------------------------------------------------------------------
  // downloadStateForDownloads
  // ---------------------------------------------------------------------------

  /** The aggregate accessory state of a (possibly missing) list of videos.
      Checks in this order: no list or an empty list gives no state; all
      complete gives `Done`; all the incomplete ones partial gives
      `Downloading`; anything else gives `Available`. */
  function DownloadStateForDownloads(videos: Option<seq<Video>>): (r: Option<AccessoryState>)
    ensures r == None <==> videos == None || |videos.value| == 0
    ensures r == Some(Done) <==> videos != None && |videos.value| > 0 && AllIn(videos.value, Complete)
    ensures r == Some(Downloading) <==>
      videos != None && !AllIn(videos.value, Complete) && !SomeNotStarted(videos.value)
    ensures r == Some(Available) <==> videos != None && SomeNotStarted(videos.value)
  {
    if videos == None || |videos.value| == 0 then None
    else
      var allCompleted := ReduceAllInState(true, videos.value, Complete);
      if allCompleted then Some(Done)
      else
        var filteredVideos := Incomplete(videos.value);
        var allDownloading := ReduceAllInState(true, filteredVideos, Partial);
        FilteredAllPartial(videos.value);
        if allDownloading then Some(Downloading)
        else
          // The solver needs these steps to turn the failed fold over the
          // filtered list into a witness for `SomeNotStarted`.
          assert !(forall i :: 0 <= i < |filteredVideos| ==> filteredVideos[i].downloadState == Partial);
          assert filteredVideos == Incomplete(videos.value);
          assert SomeNotStarted(videos.value);
          Some(Available)
  }

  /** The incomplete videos are all partial exactly when no video is
      neither complete nor partial. */
  lemma FilteredAllPartial(videos: seq<Video>)
    ensures (forall i :: 0 <= i < |Incomplete(videos)| ==> Incomplete(videos)[i].downloadState == Partial)
      <==> !SomeNotStarted(videos)
  {
    var f := Incomplete(videos);
    forall v | v in videos
      ensures v.downloadState != Complete ==> v in f
    {
      IncompleteMembers(videos, v);
    }
    forall v | v in f
      ensures v in videos
    {
      IncompleteMembers(videos, v);
    }
  }

  // ---------------------------------------------------------------------------
  // Order independence
  // ---------------------------------------------------------------------------

  /** The three facts the classifier reads off a list are facts about the
      set of states that occur in it. */
  lemma StatesOfDecides(videos: seq<Video>)
    ensures |videos| > 0 <==> StatesOf(videos) != {}
    ensures AllIn(videos, Complete) <==> StatesOf(videos) <= {Complete}
    ensures SomeNotStarted(videos) <==> New in StatesOf(videos)
  {
    forall v | v in videos
      ensures v.downloadState in StatesOf(videos)
    {
    }
    if |videos| > 0 {
      assert videos[0] in videos;
    }
    if New in StatesOf(videos) {
      var v :| v in videos && v.downloadState == New;
    }
  }

  /** The classifier's answer depends only on which download states occur,
      not on how often or where. */
  lemma SameStatesSameAnswer(a: seq<Video>, b: seq<Video>)
    requires StatesOf(a) == StatesOf(b)
    ensures DownloadStateForDownloads(Some(a)) == DownloadStateForDownloads(Some(b))
  {
    StatesOfDecides(a);
    StatesOfDecides(b);
  }

  /** Reordering the videos (or any other permutation) leaves the answer
      unchanged. */
  lemma ReorderingKeepsAnswer(a: seq<Video>, b: seq<Video>)
    requires multiset(a) == multiset(b)
    ensures DownloadStateForDownloads(Some(a)) == DownloadStateForDownloads(Some(b))
  {
    forall v ensures v in a <==> v in b {
      assert v in a <==> v in multiset(a);
      assert v in b <==> v in multiset(b);
    }
    assert StatesOf(a) == StatesOf(b);
    SameStatesSameAnswer(a, b);
  }

  /** The classifier on representative lists, including the tie-break for
      a mix of complete and partial videos. */
  lemma ClassifierExamples()
    ensures DownloadStateForDownloads(None) == None
    ensures DownloadStateForDownloads(Some([])) == None
    ensures DownloadStateForDownloads(Some([Video(0, Complete)])) == Some(Done)
    ensures DownloadStateForDownloads(Some([Video(0, Complete), Video(1, Complete)])) == Some(Done)
    ensures DownloadStateForDownloads(Some([Video(0, Partial), Video(1, Partial)])) == Some(Downloading)
    ensures DownloadStateForDownloads(Some([Video(0, Complete), Video(1, Partial)])) == Some(Downloading)
    ensures DownloadStateForDownloads(Some([Video(0, New), Video(1, Partial)])) == Some(Available)
    ensures DownloadStateForDownloads(Some([Video(0, Complete), Video(1, New)])) == Some(Available)
  {
  }

  // ---------------------------------------------------------------------------
  // Rules that read the classifier's answer
  // ---------------------------------------------------------------------------

  /** The video listener: with a state, the accessory is shown with that state
      and the number of videos; without one, the trailing view is removed. */
  function TrailingAccessory(downloads: Option<seq<Video>>): (r: Option<Accessory>)
    ensures r == None <==> downloads == None || |downloads.value| == 0
    ensures r != None ==>
      downloads != None && r.value.itemCount == |downloads.value| &&
      DownloadStateForDownloads(downloads) == Some(r.value.state)
  {
    match DownloadStateForDownloads(downloads)
    case None => None
    case Some(state) => Some(Accessory(state, |downloads.value|))
  }

  /** A tap on the accessory asks the delegate to show the downloads only
      while the accessory is in the downloading state. */
  predicate TapShowsDownloads(viewState: AccessoryState): (r: bool)
    ensures r <==> viewState != Available && viewState != Done
  {
    viewState == Downloading
  }

  /** After the listener has shown the accessory, a tap shows the downloads
      exactly when some video is still incomplete and every incomplete one is
      partially downloaded. */
  lemma TapAfterListener(downloads: Option<seq<Video>>)
    requires TrailingAccessory(downloads) != None
    ensures TapShowsDownloads(TrailingAccessory(downloads).value.state) <==>
      !AllIn(downloads.value, Complete) && forall v :: v in downloads.value && v.downloadState != Complete ==> v.downloadState == Partial
  {
  }

  /** `isAllVideosDownloaded`, given the current value of the cell's video
      stream: true only when the classifier says `Done`. */
  function IsAllVideosDownloaded(downloads: Option<seq<Video>>): (r: bool)
    ensures r <==> downloads != None && |downloads.value| > 0 && AllIn(downloads.value, Complete)
  {
    match DownloadStateForDownloads(downloads)
    case Some(state) => state == Done
    case None => false
  }

  /** The swipe actions of a row: none unless every video is downloaded and
      the swipe is not from the left; otherwise the single delete action. */
  function EditActionsForRow(downloads: Option<seq<Video>>, orientation: SwipeOrientation): (r: Option<seq<SwipeAction>>)
    ensures r != None <==>
      downloads != None && |downloads.value| > 0 && AllIn(downloads.value, Complete) && orientation != Left
    ensures r != None ==> r.value == [DeleteDownloadedVideos(None, TrashIconSize)]
  {
    if !IsAllVideosDownloaded(downloads) || orientation == Left then None
    else Some([DeleteDownloadedVideos(None, TrashIconSize)])
  }
}
