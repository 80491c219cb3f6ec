# Course-section cell download state, in Dafny

This project models the download-status logic of the course-section table
cell of the edX iOS app (`CourseSectionTableViewCell`). A section cell shows
a block's title and, at its trailing edge, a download accessory whose state
summarises the download states of the section's videos:

- no list, or an empty list: no state, and the accessory is hidden;
- every video complete: `Done`;
- otherwise, looking only at the videos that are not complete: `Downloading`
  when all of them are partially downloaded, `Available` when not.

The classifier (`downloadStateForDownloads`) is a guard followed by two
`reduce(true) { acc && … }` folds; the second fold runs over the output of
`filterVideos`, a loop that appends every non-complete video to a local
list. Three small rules read the classifier's answer: the video listener
shows or hides the accessory, a tap on the accessory asks the delegate to
show the downloads only in the `Downloading` state, and a swipe offers the
delete action only when all videos are downloaded and the swipe is not from
the left.

Files:

- `wrappers.dfy` — module `Wrappers`: `Option`, standing for Swift optionals.
- `section_cell.dfy` — module `CourseSectionCell`: the video and accessory
  data types, the fold, the filter (a specification function and the looping
  method proved equal to it), the classifier with its full characterisation,
  order-independence lemmas, and the listener, tap and swipe rules.

A video's download state is `New | Partial | Complete`; the cell only ever
tests `Partial` and `Complete`, so `New` stands for every other state.
A video carries an `id` so that "in the original order" is observable.

## Model

| member | source | states |
|---|---|---|
| CourseSectionCell.ReduceAllInState | Source/CourseSectionTableViewCell.swift:87-89 | the `reduce(true) { acc && state == s }` fold is true exactly when the start value is true and every video is in state `s` |
| CourseSectionCell.Incomplete | Source/CourseSectionTableViewCell.swift:109-119 | the filtered list is no longer than the input and holds no complete video |
| CourseSectionCell.IncompleteAppend | Source/CourseSectionTableViewCell.swift:111-116 | filtering a concatenation is the concatenation of the filtered parts, so kept videos stay in their original relative order |
| CourseSectionCell.IncompleteMembers | Source/CourseSectionTableViewCell.swift:112-115 | a video is in the filtered list exactly when it is in the input and not complete |
| CourseSectionCell.IncompleteKeepsAllIncomplete | Source/CourseSectionTableViewCell.swift:112-115 | a list with no complete video is returned unchanged |
| CourseSectionCell.FilterVideos | Source/CourseSectionTableViewCell.swift:109-119 | the append loop returns exactly the non-complete videos, in order |
| CourseSectionCell.DownloadStateForDownloads | Source/CourseSectionTableViewCell.swift:84-107 | no state exactly for a missing or empty list; `Done` exactly when the list is non-empty and all complete; `Downloading` exactly when some video is incomplete and none is neither complete nor partial (mixes of complete and partial included); `Available` exactly when some video is neither complete nor partial; so a non-empty list always gets exactly one state |
| CourseSectionCell.FilteredAllPartial | Source/CourseSectionTableViewCell.swift:95-102 | all filtered videos are partial exactly when no video is neither complete nor partial |
| CourseSectionCell.StatesOfDecides | Source/CourseSectionTableViewCell.swift:85-99 | non-emptiness, all-complete and some-not-started are each decided by the set of states that occur |
| CourseSectionCell.SameStatesSameAnswer | Source/CourseSectionTableViewCell.swift:87-99 | two lists in which the same states occur get the same answer |
| CourseSectionCell.ReorderingKeepsAnswer | Source/CourseSectionTableViewCell.swift:87-99 | permuting the list does not change the answer |
| CourseSectionCell.ClassifierExamples | Source/CourseSectionTableViewCell.swift:84-107 | the answer on missing, empty, all-complete, all-partial, complete+partial (`Downloading`) and not-started mixes (`Available`) |
| CourseSectionCell.TrailingAccessory | Source/CourseSectionTableViewCell.swift:41-49 | the accessory is hidden exactly for a missing or empty list; when shown it carries the classifier's state and the number of videos |
| CourseSectionCell.TapShowsDownloads | Source/CourseSectionTableViewCell.swift:65 | a tap asks the delegate to show the downloads exactly when the accessory's state is `Downloading`, never in the `Available` or `Done` state |
| CourseSectionCell.TapAfterListener | Source/CourseSectionTableViewCell.swift:63-68 | once the listener shows the accessory, a tap shows the downloads exactly when some video is incomplete and every incomplete one is partial |
| CourseSectionCell.IsAllVideosDownloaded | Source/CourseSectionTableViewCell.swift:128-136 | true exactly when the list is present, non-empty and every video is complete |
| CourseSectionCell.EditActionsForRow | Source/CourseSectionTableViewCell.swift:160-174 | a swipe action is offered exactly when the list is present, non-empty, all complete and the swipe is not from the left; the action is then the single untitled delete action with a size-30 trash icon |

## Left out

- `BackedStream` / `OEXStream` (`videosStream`, `listen`, `backWithStream`, the `videos` setter and `prepareForReuse`): their implementation is not part of this model. The stream's current value is a parameter (`downloads`) of the rules that read it.
- IsAllVideosDownloaded: takes the stream's current value directly; the source obtains it through a `listen` callback and is only correct if that callback runs synchronously, which depends on stream code not part of this model.
- NotificationCenter observers (lines 52-61): global broadcast plumbing; on each notification they re-run the same classifier, which is modelled.
- `deleteVideos` and `deleteDownloadedVideos` (lines 122-126, 138-144): a call into the persistence layer that deletes files. The delete swipe action's handler (lines 166-169) is therefore not modelled, only the decision to offer it.
- The download action (lines 36-40): it forwards the current videos to the delegate with no decision of its own.
- EditActionsForRow: the action's red background colour and the trash icon's image are UI styling and are not modelled; only the title and icon size are.
- TapAfterListener: the tap reads the accessory view's current state; when the classifier gives no state the view keeps whatever state it had before, which the model does not track.
- `CourseDashboardCourseInfoCell.swift`: layout constraints, floating-point sizes and image-cache callbacks.
- `OEXExternalRegistrationOptionsView.h`: view declarations with no logic.
- Cell construction, layout, gesture recogniser wiring, the `block` setter and the `init(coder:)` fatal path: UI lifecycle code.
