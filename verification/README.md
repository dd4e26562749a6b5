# Verified models of RabbitRemoteControl

RabbitRemoteControl is a remote desktop and file transfer program. These modules model the parts of it that
keep state under pressure (the SFTP transfer engine and its job protocol, the directory listing protocol and
the lazily filled remote tree, the growing grid of views, the settings it saves, the viewer's coordinates, the
FTP server's admission) and prove what each of them promises, or state exactly when it does not.

`dafny verify dfyconfig.toml` checks the whole project. Every lemma carries `{:induction false}`: what it says follows
from its body, and from no induction hypothesis that is not called there.

## How the modules belong together

- `TransferJob` is one entry of the channel's transfer list as a value, and a visit of `AsyncFile` as a
  function `Step` of the entry and of the answers of libssh and the local disk in that visit (`Answers`: do the
  opens work, which length limit, which begin calls work, how each wait ends). The libssh 0.11 branch is
  modelled. Functions quote the lines of `Plugins/FileTransfer/ChannelSFTP.cpp` they stand for.
- `Download`, `DownloadProgress`, `Upload`, `Progress` and `LifeCycle` prove what every visit keeps, what a
  finished transfer means, when transfers end, and exactly when they cannot. `DownloadContent` and `UploadContent`
  prove exactly when a finished copy is right, also of a file that has changed its length since it was listed;
  they compare transfers that differ in the bytes of their files only (`TwinTransfers`).
- `Failures` says by the answers, one by one, what a visit takes, counts and stores, when it fails, and how a failed
  transfer leaves the list. `Requests` says what a visit asks for or hands over: as much as is allowed, in order.
- `ChannelSftp` has the objects: `FileTransfer`, `AFile` and `Channel`, whose methods change their fields as
  the source does and are proved to be `Step`, entry by entry, over a list from which entries are erased while
  it is being walked. What is proved of `Step` therefore holds of the objects.
- `JobProtocol` puts the window, the event queue and the channel together and lets them interleave. `JobPass` proves
  that a pass of it that nothing interrupts does to the list what the scan of `AsyncFile` does.
- `ListingModel` and `ListingProtocol` do the same for directory listings. `DirReader` is one reader of the
  channel as a value, `ChannelDirs` has the reader objects and the scan of `AsyncReadDir`, and every visit is
  proved to be a move of the protocol. `RemoteTree` has the tree objects, and its `FetchMore` and `SlotGetDir`
  are proved to be the `Fetch` and `Receive` of the protocol.
- `SquareShell` and `ViewSplitter` are the grid of views: a closed form, the greedy search that refines it and
  the class with its map, counters and current position.
- `Settings` is the grouped key/value store; `Parameter` and `TransferList` save into it and load from it.
  `Password` adds the cipher and the dialogs.
- `ViewerGeometry`, `MouseInput` and `FtpServer` stand alone. `Wrappers` has what all share, `Survival` what the
  two scans that erase share.

## What the code does where its intention differs

These are proved about the code as it is, with the exact condition under which it does what it is for.

- Download, `ChannelSFTP.cpp:720`: a failed local write sets ERR at line 710, but when the bytes counted have
  reached the file size the test after the loop overwrites it with CLOSE. A file with a lost last piece is
  reported as finished (`LastWriteDecides`; `LostLastChunk` from start to Finish).
- Download, lines 701 and 727: a short read is counted but never asked for again, so every later request is that
  much further on in the file. A download can still finish if and only if the remote file has the noted size and
  that much more (`FinishReachableIff`). If it finishes, every content of that length is copied right if and
  only if no read that was counted was short and the last write worked (`CopyRightIff`; `ShortReadOfGrownFile`
  from start to Finish).
- Download of a remote file that has become shorter: it asks beyond the end for ever and stays Transferring
  (`DownloadCompletes`, `ShrunkDownloadHangs`).
- Upload, line 816: the completion test is inside the loop over acknowledgements, so an empty upload never
  finishes; nor does one of a local file that has become shorter (`UploadCompletesIff`, `UploadHangs`).
- Upload, lines 832-842: a begin call that fails has already consumed bytes of the local file. An upload can
  still finish if and only if it is not empty and the local file has the noted size and that much more
  (`FinishReachableIff`); one of a file of the noted length whose first begin call fails is lost
  (`FirstBeginFailureIsFinal`); and one that finishes is right if and only if nothing was consumed like that
  (`CopyRightIff`).
- A click on a transfer, `FrmFileTransfer.cpp:693-699`: the two tests are not one step. A click on a transfer in
  process, whatever the channel does between the tests, stops it (`StopIsHonoured`) unless the channel has
  published Stop or Fail by then; then, and only then, it starts it again (`StopClickRestartsIff`).
  `RestartHappens` is such a run from an empty list.
- Directory readers, lines 470-475: a close that fails leaves the handle in the reader, and closing the channel
  before the next visit closes it a second time (`ClosedOnceIff`; `ClosedTwice` from asking on). A reply does not
  carry the reader's error, so a listing that broke off is shown like a whole one. A reply is whole if and only
  if what was not read holds nothing to list, and all was read if and only if no visit broke the reading off
  (`ReplyWholeIff`); `BrokenListingReplies` is a reply that shows any directory as empty.
- Channel close, lines 363-373: entries are dropped without publishing a state, so a transfer in process stays
  so for good and can be neither started nor deleted (`JobProtocol.ClosedChannelStrands`, from an empty list
  `JobProtocol.StrandingHappens`).
- Closing the channel drops listing requests and readers without a reply, so a model waits for those nodes for
  ever and a refresh asks nothing, until it gets a new root (`CloseStrandsIff`, `ClosedListingStrands`, and from
  the beginning `ListingProtocol.StrandingHappens`).
- Removing a remote directory leaves `m_GetFolder` alone, so a reply can be written to a node that has been
  deleted, if and only if a removed node was being listed (`RemovalSafeIff`, `CarefulNeverBreaks`, and from the
  beginning `DeletedNodeIsWritten`).
- `ViewSplitter.cpp:155` looks into row `nRow + 1` instead of the row `i` it has just found not empty
  (`FocusLostIff`; `FocusCanBeLost` reaches it by opening seven views and closing five).
- Saving an empty password writes nothing, so an older one stays (`EmptyPasswordKeepsOld`).

## Model

| member | source | states |
|---|---|---|
| Download.BatchAddsUp | Plugins/FileTransfer/ChannelSFTP.cpp:592-614 | what is awaited is the stretch from the oldest byte to the read offset, in order, without holes, in requests of 1 to chunk-size bytes, and with the bytes counted it never passes the file size |
| Download.BeginReadsKeeps | Plugins/FileTransfer/ChannelSFTP.cpp:727-756 | a new batch starts where the last one ended, stays inside the file size and changes nothing but the queue and the offset; something is awaited afterwards if the first begin call works |
| Download.StoredKeeps | Plugins/FileTransfer/ChannelSFTP.cpp:701-718 | a finished read keeps the window and the written prefix, and a short one widens the gap by exactly the missing bytes |
| Download.AwaitReadsKeeps | Plugins/FileTransfer/ChannelSFTP.cpp:682-719 | however the waits are answered, the window is kept, progress never goes back, and the shown size grows with what is written |
| Download.ReadKeeps | Plugins/FileTransfer/ChannelSFTP.cpp:678-756 | a READ visit keeps the invariant whatever the answers, and never narrows the gap |
| Download.OpenKeeps | Plugins/FileTransfer/ChannelSFTP.cpp:540-676 | an OPEN visit reaches READ exactly when both files open, with no gap and, if the file is not empty and the first begin call works, something awaited |
| Download.StepKeeps | Plugins/FileTransfer/ChannelSFTP.cpp:535-886 | every visit with any answers keeps the download invariant; an entry that leaves shows Finish exactly when it was in FINISH |
| Download.RunKeeps | Plugins/FileTransfer/ChannelSFTP.cpp:535-886 | so does every run of visits |
| Download.FinishedDownload | Plugins/FileTransfer/ChannelSFTP.cpp:702-722 | for a remote file not longer than noted, Finish is reported only if it is exactly that long and counted in full, with a beginning of it on disk and the shown size grown by what was written |
| DownloadProgress.StepLive | Plugins/FileTransfer/ChannelSFTP.cpp:535-886 | no stall: after a healthy visit a reading download awaits something, each answered visit lowers the measure, and the gap stays |
| DownloadProgress.RunCompletes | Plugins/FileTransfer/ChannelSFTP.cpp:535-886 | a live download finishes once as many visits are answered as its measure says, and without a gap it then has exactly the bytes noted |
| DownloadProgress.HealthyDownload | Plugins/FileTransfer/ChannelSFTP.cpp:682-756 | after any number of healthy visits the local file is exactly the first nTransfers bytes of the remote one, the shown size has grown by exactly that, the outstanding requests are exactly the bytes from there to the end of the batch, in order and within the file size, and a reading download has some |
| DownloadProgress.DownloadCompletes | Plugins/FileTransfer/ChannelSFTP.cpp:497-886 | once enough visits are answered and none failed, a download has finished, with exactly the bytes noted, if and only if the remote file is at least as long as noted |
| DownloadProgress.ShrunkDownloadHangs | Plugins/FileTransfer/ChannelSFTP.cpp:682-756 | a download of a file that has become shorter stays in READ, shown as Transferring, through every run in which the files open and no wait fails, whatever its begin calls do |
| DownloadProgress.ShortReadLeavesGap | Plugins/FileTransfer/ChannelSFTP.cpp:701-705 | a short answer widens the gap at once |
| DownloadProgress.DoomedForever | Plugins/FileTransfer/ChannelSFTP.cpp:701-756 | when the noted size and the gap together pass the end of the remote file, or after an error, no continuation reaches Finish |
| DownloadProgress.FinishReachableIff | Plugins/FileTransfer/ChannelSFTP.cpp:701-756 | a reading download, of a file of any length, can still reach Finish if and only if the noted size and the bytes left out by short reads fit in the remote file |
| DownloadProgress.LastAnswerDecides | Plugins/FileTransfer/ChannelSFTP.cpp:707-712 | a visit that counts the last byte takes one answer per awaited request, and everything is on disk exactly if the last write worked |
| DownloadProgress.LastWriteDecides | Plugins/FileTransfer/ChannelSFTP.cpp:707-723 | a closing download has written all it counted exactly when its last write worked, and then, if no read was short, holds exactly the bytes noted |
| DownloadProgress.FinishedCopyIsExact | Plugins/FileTransfer/ChannelSFTP.cpp:535-886 | for a remote file not longer than noted and with no failing local write, Finish means an exact copy whatever reads and begin calls did |
| DownloadContent.WholeAnswersCopyRight | Plugins/FileTransfer/ChannelSFTP.cpp:682-756 | if every read that is answered is answered in full and stored, then, whatever opens, begin calls and waits fail and however the file has grown, after every visit the local file is exactly the bytes counted so far, and Finish means exactly the bytes noted |
| DownloadContent.ContentDoesNotSteer | Plugins/FileTransfer/ChannelSFTP.cpp:682-756 | with the same answers files of equal length are counted alike, whatever their bytes |
| DownloadContent.RunGap | Plugins/FileTransfer/ChannelSFTP.cpp:701-705 | the gap of a run is exactly the sum of what its counted reads were asked for and did not deliver |
| DownloadContent.StepEnds | Plugins/FileTransfer/ChannelSFTP.cpp:701-722 | the last byte of a closing download is the one that stands exactly the gap further on in the remote file |
| DownloadContent.CopyRightIff | Plugins/FileTransfer/ChannelSFTP.cpp:682-756 | a finishing run copies every remote file of that length right if and only if no read it counted was short and all that was counted was written |
| DownloadContent.LostLastChunk | Plugins/FileTransfer/ChannelSFTP.cpp:707-723 | from start to Finish: any file of at most one chunk whose only local write fails ends as finished with an empty copy |
| DownloadContent.ShortReadOfGrownFile | Plugins/FileTransfer/ChannelSFTP.cpp:701-756 | from start to Finish: a file noted with three bytes and grown to four, one short read, and a copy without byte 1 and with byte 3 |
| Upload.WindowAddsUp | Plugins/FileTransfer/ChannelSFTP.cpp:823-847 | acknowledged plus outstanding bytes are the bytes requested, never more than the file size, in requests within the chunk size and, as long as nothing was skipped, not empty |
| Upload.SentKeeps | Plugins/FileTransfer/ChannelSFTP.cpp:828-846 | one more chunk sent keeps the window and, as long as nothing was skipped, that the server has exactly the first nRequests bytes, in order |
| Upload.SkippedKeeps | Plugins/FileTransfer/ChannelSFTP.cpp:832-843 | a chunk read for a begin call that fails is skipped for good: the window stays and the skipped bytes grow by exactly that chunk |
| Upload.BeginWritesKeeps | Plugins/FileTransfer/ChannelSFTP.cpp:646-669 | filling the window keeps it within five requests, loses nothing if no begin call fails, and leaves something outstanding if the first works |
| Upload.AwaitWritesKeeps | Plugins/FileTransfer/ChannelSFTP.cpp:800-820 | however acknowledgements come, the window is kept, progress never goes back, and CLOSE means all of a non-empty file was acknowledged |
| Upload.ReadKeeps | Plugins/FileTransfer/ChannelSFTP.cpp:797-851 | a READ visit keeps the invariant and skips bytes only by a failing begin call |
| Upload.OpenKeeps | Plugins/FileTransfer/ChannelSFTP.cpp:540-676 | an OPEN visit reaches READ exactly when both files open; if no begin call fails nothing is skipped and a non-empty file has something outstanding |
| Upload.StepKeeps | Plugins/FileTransfer/ChannelSFTP.cpp:535-886 | every visit with any answers keeps the upload invariant; an entry that leaves shows Finish exactly when it was in FINISH |
| Upload.UploadWindow | Plugins/FileTransfer/ChannelSFTP.cpp:646-669 | over every run in which begin calls succeed: nTransfers plus the outstanding lengths is nRequests, at most the file size; at most five requests of 1 to chunk-size bytes; and the server has exactly the first nRequests bytes |
| Upload.FinishedUpload | Plugins/FileTransfer/ChannelSFTP.cpp:815-818 | Finish is reported only for a non-empty file acknowledged in full, and the server then has exactly the local file if that is not longer than noted, whatever failed on the way |
| Upload.StepLive | Plugins/FileTransfer/ChannelSFTP.cpp:535-886 | no stall: after a healthy visit a non-empty upload has something outstanding, each answered visit lowers the measure, and nothing more is skipped |
| Upload.RunCompletes | Plugins/FileTransfer/ChannelSFTP.cpp:535-886 | a live upload finishes after as many answered visits as its measure says, and if nothing was skipped the server then has exactly the bytes noted |
| Upload.UploadCompletesIff | Plugins/FileTransfer/ChannelSFTP.cpp:800-820 | once enough visits are answered and none failed, an upload has finished, with exactly the bytes noted, if and only if it is not empty and the local file is at least as long as noted |
| Upload.UploadHangs | Plugins/FileTransfer/ChannelSFTP.cpp:800-847 | an upload that is empty, or whose local file has become shorter, stays in READ, shown as Transferring, through every run in which the files open and no wait fails, whatever its begin calls do |
| Upload.DoomedForever | Plugins/FileTransfer/ChannelSFTP.cpp:832-842 | when the local file has no bytes left for all that is still to be sent, or the upload is empty, or after an error, no continuation reaches Finish |
| Upload.FinishReachableIff | Plugins/FileTransfer/ChannelSFTP.cpp:832-842 | a reading upload, of a file of any length, can still reach Finish if and only if it is not empty and the noted size and the bytes skipped fit in the local file |
| Upload.FirstBeginFails | Plugins/FileTransfer/ChannelSFTP.cpp:654-664 | a first begin call that fails leaves exactly the first chunk skipped |
| Upload.FirstBeginFailureIsFinal | Plugins/FileTransfer/ChannelSFTP.cpp:646-664 | an upload of a file not longer than noted whose first begin call fails never finishes, whatever comes after |
| UploadContent.ContentDoesNotSteer | Plugins/FileTransfer/ChannelSFTP.cpp:800-847 | with the same answers files of equal length are sent alike, whatever their bytes |
| UploadContent.CopyRightIff | Plugins/FileTransfer/ChannelSFTP.cpp:646-669 | a finishing run gives the server every local file of that length right if and only if no failing begin call had read any bytes |
| TwinTransfers.TwinsRun | Plugins/FileTransfer/ChannelSFTP.cpp:535-886 | two transfers, down or up, that differ in the bytes of their files only go the same way through every run |
| Failures.DownloadVisitFailsIff | Plugins/FileTransfer/ChannelSFTP.cpp:682-723 | a READ visit of a download ends in CLOSE if the count is complete, and otherwise in ERR if and only if the first answer, to a request still awaited, that is not a stored read is a failed wait or a read that could not be stored |
| Failures.ReadsTaken | Plugins/FileTransfer/ChannelSFTP.cpp:682-719 | answers are for the oldest requests in order, up to the first that is not a stored read; each adds to the count the bytes it delivers, what was asked less what is missing within the file, and if it was stored exactly those bytes to the local file and their number to the shown size |
| Failures.UploadVisitFailsIff | Plugins/FileTransfer/ChannelSFTP.cpp:800-820 | a READ visit of an upload ends in ERR if and only if the first answer, to a request still awaited, that is not an acknowledgement is a failed wait |
| Failures.AcksTaken | Plugins/FileTransfer/ChannelSFTP.cpp:800-820 | acknowledgements are for the oldest requests in order and count those in full |
| Failures.ErrorLeaves | Plugins/FileTransfer/ChannelSFTP.cpp:868-880 | an entry in ERR leaves with its next visit, shown as Fail, with its handles closed and its bytes as they were |
| Failures.FailedVisitLeaves | Plugins/FileTransfer/ChannelSFTP.cpp:692-880 | whatever the later answers, a transfer whose READ visit fails by those conditions is off the list one visit later, shown as Fail, with every handle it opened closed once |
| Failures.FailedOpenLeaves | Plugins/FileTransfer/ChannelSFTP.cpp:551-576 | from its start: a transfer whose files do not both open is off the list one visit later as Fail, with nothing counted, the remote file closed if it opened, and nothing changed but that a remote file opened for an upload is empty |
| Requests.FirstQueue | Plugins/FileTransfer/ChannelSFTP.cpp:540-676 | a transfer that opens takes the length limit of the server, or keeps the default, for either direction, and fills its queue from the beginning of the file: consecutive requests, each as long as limit, noted size and, for uploads, local file allow, until there are five, nothing is left or a begin call fails |
| Requests.ReadsQueued | Plugins/FileTransfer/ChannelSFTP.cpp:727-756 | likewise for every batch: what is added to the queue, request by request |
| Requests.NextBatch | Plugins/FileTransfer/ChannelSFTP.cpp:724-756 | a READ visit of a download asks for the next such batch exactly when everything asked for was answered, and for the bytes that are not counted yet |
| Requests.ChunkIsLargest | Plugins/FileTransfer/ChannelSFTP.cpp:649-654 | the chunk read for a begin call is the next piece of the local file, of the smallest of limit, bytes still to be sent and bytes that are there |
| Requests.WritesQueued | Plugins/FileTransfer/ChannelSFTP.cpp:823-847 | a window of writes carries such chunks in order, hands over exactly their bytes, and loses exactly the one read for a begin call that fails |
| Requests.NextWindow | Plugins/FileTransfer/ChannelSFTP.cpp:821-847 | a READ visit of an upload fills the window up to five again |
| LifeCycle.ReadRelated | Plugins/FileTransfer/ChannelSFTP.cpp:678-852 | a READ visit keeps the visible state and its relation to stage and handles, for downloads and uploads |
| LifeCycle.CleanBalances | Plugins/FileTransfer/ChannelSFTP.cpp:888-903 | cleaning or stopping an entry closes exactly the handles it opened, once each |
| LifeCycle.StopsAndCleansOnly | Plugins/FileTransfer/ChannelSFTP.cpp:519-529 | stopping shows Stop and closes what is open, the local file first; cleaning closes it, the remote file first; neither changes anything else |
| LifeCycle.LastVisits | Plugins/FileTransfer/ChannelSFTP.cpp:853-880 | after CLOSE comes FINISH, shown as Closing; after FINISH the entry leaves as Finish and after ERR as Fail, each with what is open closed and nothing else changed |
| LifeCycle.StepRelated | Plugins/FileTransfer/ChannelSFTP.cpp:535-886 | OPEN goes with Opening, READ and CLOSE with Transferring, FINISH with Closing; an entry leaves with balanced handles as Finish or Fail, and as Finish only from Closing |
| LifeCycle.RunRelated | Plugins/FileTransfer/ChannelSFTP.cpp:535-886 | over every run, and the visible state never goes back |
| ChannelSftp.AFile.TakeRead | Plugins/FileTransfer/ChannelSFTP.cpp:701-718 | the object after a finished read is the value `Stored`, or the counted one in ERR if the write failed |
| ChannelSftp.AFile.WaitReads | Plugins/FileTransfer/ChannelSFTP.cpp:682-719 | the loop computes `AwaitReads`; it ends in ERR if and only if the first answer that is not a stored read is a failed wait or one that could not be stored |
| ChannelSftp.AFile.BeginReadBatch | Plugins/FileTransfer/ChannelSFTP.cpp:727-756 | the loop computes `BeginReads` |
| ChannelSftp.AFile.WaitWrites | Plugins/FileTransfer/ChannelSFTP.cpp:800-820 | the loop computes `AwaitWrites`; it ends in ERR if and only if the first answer that is not an acknowledgement is a failed wait |
| ChannelSftp.AFile.SendChunk | Plugins/FileTransfer/ChannelSFTP.cpp:828-846 | one chunk is read, and handed over if the begin call works |
| ChannelSftp.AFile.BeginWriteWindow | Plugins/FileTransfer/ChannelSFTP.cpp:823-847 | the loop computes `BeginWrites` |
| ChannelSftp.AFile.OpenFiles | Plugins/FileTransfer/ChannelSFTP.cpp:540-676 | the OPEN case is `Open` on the value |
| ChannelSftp.AFile.Transfer | Plugins/FileTransfer/ChannelSFTP.cpp:678-852 | the READ case is `Read` on the value |
| ChannelSftp.AFile.CleanFileAIO | Plugins/FileTransfer/ChannelSFTP.cpp:888-903 | closes what is open, and only that |
| ChannelSftp.AFile.Visit | Plugins/FileTransfer/ChannelSFTP.cpp:539-881 | one turn of the switch is exactly `Step`, including whether the entry is erased |
| ChannelSftp.Channel.StartFileTransfer | Plugins/FileTransfer/ChannelSFTP.cpp:497-513 | appends one fresh entry in OPEN with the default length limit of 4096 and nothing held, asked or counted, for a transfer shown as Opening; entries stay those of different transfers exactly if none was there for it |
| ChannelSftp.Channel.StopFileTransfer | Plugins/FileTransfer/ChannelSFTP.cpp:515-533 | the transfer is shown as Stop and has no entry any more; its entry is closed and otherwise unchanged (`StopsAndCleansOnly`), order and values of the others stay; nothing happens when there is none |
| ChannelSftp.Channel.VisitAt | Plugins/FileTransfer/ChannelSFTP.cpp:537-884 | one turn of the scan: the entry is visited and erased or passed over, the rest is untouched |
| ChannelSftp.Channel.Scan | Plugins/FileTransfer/ChannelSFTP.cpp:537-884 | the scan visits every entry once although entries are erased on the way |
| ChannelSftp.Channel.AsyncFile | Plugins/FileTransfer/ChannelSFTP.cpp:535-886 | one pass makes of every entry what its own answers say, and those that stay keep their order |
| ChannelSftp.Channel.OnClose | Plugins/FileTransfer/ChannelSFTP.cpp:354-378 | every handle still open is closed and the list is emptied |
| ChannelSftp.SurvivorsDistinct | Plugins/FileTransfer/ChannelSFTP.cpp:537-884 | what a pass leaves is still a list of different entries of different transfers |
| JobProtocol.TokensConserved | Plugins/FileTransfer/BackendFileTransfer.cpp:68-126 | only the second test of a click makes a token of a transfer and only publishing its last state destroys one; every other step moves them between window, queue and channel |
| JobProtocol.StartFindsNoEntry | Plugins/FileTransfer/ChannelSFTP.cpp:497-513 | a start event is never taken while an entry of its transfer exists |
| JobProtocol.ActionKeeps | Plugins/FileTransfer/FrmFileTransfer.cpp:666-700 | every step of any thread keeps the invariant of the protocol |
| JobProtocol.RunKeeps | Plugins/FileTransfer/BackendFileTransfer.cpp:265-283 | so does every interleaving |
| JobProtocol.ProcessIffOneOwner | Plugins/FileTransfer/FrmFileTransfer.cpp:687-700 | in every interleaving on an open channel a transfer is in process if and only if exactly one start event or entry of it exists, and otherwise neither does |
| JobProtocol.NeverTwoJobs | Plugins/FileTransfer/ChannelSFTP.cpp:497-533 | no transfer ever has two entries |
| JobProtocol.DeletedIsIdle | Plugins/FileTransfer/FrmFileTransfer.cpp:666-685 | a transfer deleted from the list is not worked on and no event will make it so |
| JobProtocol.ActionHalts | Plugins/FileTransfer/BackendFileTransfer.cpp:68-126 | while a stop of a transfer waits behind its start, every step of any thread keeps it so or ends the transfer |
| JobProtocol.ActionBetween | Plugins/FileTransfer/FrmFileTransfer.cpp:693-696 | between the two tests of a click every step of the channel keeps the transfer's stop queued behind its start, or ends the transfer |
| JobProtocol.StopIsHonoured | Plugins/FileTransfer/FrmFileTransfer.cpp:687-700 | a click on a transfer in process, with any steps between its two tests, whose second test does not find it startable: every continuation without another click on it that empties the queue leaves it not in process |
| JobProtocol.StopIsShown | Plugins/FileTransfer/ChannelSFTP.cpp:515-533 | taking a stop event of a transfer with an entry ends with Stop on its way to the window, for that transfer and for no other |
| JobProtocol.StartableIff | Plugins/FileTransfer/FrmFileTransfer.cpp:693-696 | between the two tests of a click a transfer in process becomes startable if and only if the channel publishes Stop or Fail for it |
| JobProtocol.StopClickRestartsIff | Plugins/FileTransfer/FrmFileTransfer.cpp:693-699 | with any steps between the two tests, a click on a transfer in process posts a start of it if and only if one of those steps published Stop or Fail for it |
| JobProtocol.StopClickRestarts | Plugins/FileTransfer/FrmFileTransfer.cpp:693-699 | one step of the channel between the two tests is enough: publishing Stop or Fail, and not Finish |
| JobProtocol.RestartHappens | Plugins/FileTransfer/FrmFileTransfer.cpp:693-699 | a run from an empty list: a remote file does not open, the entry is being taken off, the user clicks to stop it, and it is started again |
| JobProtocol.ClosedChannelStrands | Plugins/FileTransfer/ChannelSFTP.cpp:354-378 | a transfer in process when the channel has closed stays so through every later run and cannot be deleted |
| JobProtocol.StrandingHappens | Plugins/FileTransfer/ChannelSFTP.cpp:354-378 | a run from an empty list: a transfer is taken up, the channel closes, and in every continuation the transfer is in process and cannot be deleted |
| JobPass.PassScans | Plugins/FileTransfer/ChannelSFTP.cpp:535-886 | an uninterrupted pass of the protocol visits every entry once although entries leave on the way, keeps the order of those that stay, publishes the outcome of each, and changes nothing else |
| JobPass.ShownIs | Plugins/FileTransfer/ChannelSFTP.cpp:862-879 | after it every transfer with an entry shows the outcome of its own visit |
| JobPass.OthersStay | Plugins/FileTransfer/ChannelSFTP.cpp:862-879 | and every other transfer what it showed |
| DirReader.FileNodesFrom | Plugins/FileTransfer/ChannelSFTP.cpp:101-140 | every node found is the node of an entry of the directory |
| DirReader.EntryMakesNode | Plugins/FileTransfer/ChannelSFTP.cpp:101-140 | an entry makes a node if and only if its name is neither `.` nor `..` and its kind is known; the path is the directory's, a slash unless that ends in one, and the name; the type is DIR, SYMLINK, FILE or SPECIAL if and only if the kind is directory, symbolic link, regular or special |
| DirReader.FileNodesList | Plugins/FileTransfer/ChannelSFTP.cpp:434-440 | a listing has one such node for every such entry, in the order of the directory |
| DirReader.ReplyLists | Plugins/FileTransfer/ChannelSFTP.cpp:404-495 | however libssh answers, a reply has one such node for every such entry that was read, in order, and for every entry of the directory if it was opened and no call failed |
| DirReader.VisitOutcome | Plugins/FileTransfer/ChannelSFTP.cpp:404-495 | for every stage and answer: the next stage, what is listed, how far the directory is read, whether an error is noted and whether the handle is still held |
| DirReader.DeniedForever | Plugins/FileTransfer/ChannelSFTP.cpp:421-424 | while access is denied a reader stays as it is and nothing is replied |
| DirReader.PathsDiffer | Plugins/FileTransfer/ChannelSFTP.cpp:130-134 | entries of different names make nodes of different paths |
| DirReader.StepKeeps | Plugins/FileTransfer/ChannelSFTP.cpp:404-495 | whatever libssh answers, a visit keeps what was found equal to the nodes of the entries read, keeps stage and handle together, and makes one of the protocol's moves |
| DirReader.ReplyIsDirectory | Plugins/FileTransfer/ChannelSFTP.cpp:404-495 | a reply lists a leading part of the directory in order, the whole of it if it was opened and nothing failed, and what was opened has been closed once |
| DirReader.AllReadIff | Plugins/FileTransfer/ChannelSFTP.cpp:410-458 | from any moment of the reading on, a reply has read the whole directory if and only if no visit breaks the reading off: a refused opening, an opening error that is none, or a broken read before the end |
| DirReader.ReplyWholeIff | Plugins/FileTransfer/ChannelSFTP.cpp:404-495 | a reply lists the whole directory if and only if what was not read holds nothing to list, and all was read if and only if no visit broke the reading off, whatever closing did |
| DirReader.BrokenListingReplies | Plugins/FileTransfer/ChannelSFTP.cpp:453-485 | from asking to the reply: whatever a directory holds, a read that breaks at once makes the reply say that it is empty |
| DirReader.ListingCompletes | Plugins/FileTransfer/ChannelSFTP.cpp:404-495 | a listing whose visits are healthy is over, whole and closed, after one visit per entry and four more |
| DirReader.FirstListing | Plugins/FileTransfer/RemoteFileSystemModel.cpp:583-601 | the whole of a directory reaching a node without children gives it the shown entries as children, in order |
| DirReader.ClosedOnceIff | Plugins/FileTransfer/ChannelSFTP.cpp:354-362 | closing the channel closes a directory as often as it was opened unless the reader is in FINISH with the handle of a failed close |
| DirReader.ClosedTwice | Plugins/FileTransfer/ChannelSFTP.cpp:459-476 | from asking on: a directory read to its end whose close fails is closed a second time by a channel that closes then |
| ChannelDirs.DirectoryReader.TakeEntries | Plugins/FileTransfer/ChannelSFTP.cpp:434-440 | the loop appends the nodes of the entries that are there |
| ChannelDirs.DirectoryReader.Visit | Plugins/FileTransfer/ChannelSFTP.cpp:407-491 | one turn of the switch is exactly the step of the reader's value, including whether it replies and is erased |
| ChannelDirs.SurvivorsDifferent | Plugins/FileTransfer/ChannelSFTP.cpp:404-495 | what a pass leaves is still a list of different readers of different nodes |
| ChannelDirs.SentAt | Plugins/FileTransfer/ChannelSFTP.cpp:477-483 | a pass sends one reply for every reader that leaves, with its node and what it found, in order, and no other |
| Survival.SurvivorsPairwise | Plugins/FileTransfer/ChannelSFTP.cpp:537-884 | what holds between any two elements of a list holds between any two that a pass leaves |
| Survival.SurvivorsAt | Plugins/FileTransfer/ChannelSFTP.cpp:537-884 | a pass leaves exactly the elements whose visit kept them, in their order |
| Survival.Advance | Plugins/FileTransfer/ChannelSFTP.cpp:537-884 | in the middle of a pass the list is the survivors so far and the entries not yet visited, and passing over or erasing one keeps that |
| ChannelDirs.Channel.SlotGetDir | Plugins/FileTransfer/ChannelSFTP.cpp:380-402 | a fresh reader is appended unless the path is empty or a reader has the node already |
| ChannelDirs.Channel.AsyncReadDir | Plugins/FileTransfer/ChannelSFTP.cpp:404-495 | one pass visits every reader once although readers are erased on the way, keeps the order of those that stay and sends the replies of those that leave in order |
| ChannelDirs.Channel.OnClose | Plugins/FileTransfer/ChannelSFTP.cpp:354-362 | every handle held is closed, and the readers are dropped without a reply |
| ListingModel.Find | Plugins/FileTransfer/RemoteFileSystemModel.cpp:572-576 | the first place where the model waits for the node, or none |
| ListingModel.FetchAsksIff | Plugins/FileTransfer/RemoteFileSystemModel.cpp:551-559 | a directory is asked for if and only if its state is No and it is not waited for; then it is Getting and waited for, and nothing else changes |
| ListingModel.ReceiveMarks | Plugins/FileTransfer/RemoteFileSystemModel.cpp:572-601 | a reply waited for marks its node as Ok, adds the new nodes as No and is waited for once less; any other changes nothing |
| ListingProtocol.DispatchIsNew | Plugins/FileTransfer/ChannelSFTP.cpp:386-391 | the channel's test for a second reader never finds one |
| ListingProtocol.Conserved | Plugins/FileTransfer/ChannelSFTP.cpp:380-483 | asking makes one thing under way for a node, delivering ends it, a closed channel drops readers and requests, everything else only moves it |
| ListingProtocol.DeliverKeeps | Plugins/FileTransfer/RemoteFileSystemModel.cpp:563-609 | a reply offered to all models, none of which waits for a deleted node with it, keeps each of them consistent with what is under way |
| ListingProtocol.ActionKeeps | Plugins/FileTransfer/RemoteFileSystemModel.cpp:533-582 | every step, closing the channel included, keeps the invariant of the listing protocol |
| ListingProtocol.RunKeeps | Plugins/FileTransfer/RemoteFileSystemModel.cpp:533-582 | so does every interleaving |
| ListingProtocol.OneListingPerNode | Plugins/FileTransfer/RemoteFileSystemModel.cpp:533-582 | in every interleaving request plus reader plus reply is, on an open channel, one for a live node the model waits for and zero otherwise, and never more on a closed one; Getting implies being waited for, and no node is waited for twice |
| ListingProtocol.ReplyChangesOnlyAsker | Plugins/FileTransfer/RemoteFileSystemModel.cpp:572-576 | a reply changes no model but the one that made the node and still waits for it |
| ListingProtocol.CloseStrandsIff | Plugins/FileTransfer/ChannelSFTP.cpp:354-362 | closing strands exactly the nodes waited for whose reply is not on its way yet |
| ListingProtocol.ClosedListingStrands | Plugins/FileTransfer/RemoteFileSystemModel.cpp:551-557 | a stranded node stays waited for through every run that does not give its model a new root, and a refresh of it asks nothing |
| ListingProtocol.StrandingHappens | Plugins/FileTransfer/ChannelSFTP.cpp:354-362 | a run from a model without a root: a directory is being listed when the channel closes, and is stranded |
| ListingProtocol.CarefulNeverBreaks | Plugins/FileTransfer/RemoteFileSystemModel.cpp:563-609 | in every interleaving whose removals take no node that is being listed, no reply is written to a deleted node |
| ListingProtocol.RemovalSafeIff | Plugins/FileTransfer/RemoteFileSystemModel.cpp:643-652 | some careful continuation of a removal writes a reply to a deleted node if and only if a removed node was being listed |
| ListingProtocol.DeletedNodeIsWritten | Plugins/FileTransfer/RemoteFileSystemModel.cpp:563-609 | a run from a model without a root: a directory is asked for, removed, and then written to by its reply |
| ListingProtocol.StepKeepsLive | Plugins/FileTransfer/RemoteFileSystemModel.cpp:352-368 | every step that removes no node being listed, a new root included, keeps that models wait only for live nodes |
| RemoteTree.ListedAppends | Plugins/FileTransfer/RemoteFileSystemModel.cpp:591-601 | a listing keeps the old children in place, has no path twice, and holds exactly the old and the filtered new paths |
| RemoteTree.ListedTwice | Plugins/FileTransfer/RemoteFileSystemModel.cpp:591-601 | the same listing again changes nothing |
| RemoteTree.Node.IndexOfPath | Plugins/FileTransfer/RemoteFileSystemModel.cpp:206-214 | finds a child by its path, or says that none has it |
| RemoteTree.RemoteFileSystemModel.AncestorDepth | Plugins/FileTransfer/RemoteFileSystemModel.cpp:167-184 | going up k times lowers the depth by k |
| RemoteTree.RemoteFileSystemModel.Acyclic | Plugins/FileTransfer/RemoteFileSystemModel.cpp:167-184 | no node of a valid tree is above itself |
| RemoteTree.RemoteFileSystemModel.RootIsAbove | Plugins/FileTransfer/RemoteFileSystemModel.cpp:167-184 | every node of a valid tree hangs from the root |
| RemoteTree.RemoteFileSystemModel.IndexPointsBack | Plugins/FileTransfer/RemoteFileSystemModel.cpp:470-483 | the index of a node is valid and points back at it |
| RemoteTree.RemoteFileSystemModel.IndexRoundTrip | Plugins/FileTransfer/RemoteFileSystemModel.cpp:470-515 | for every node but the root, looking its row up under its parent's index gives its index |
| RemoteTree.RemoteFileSystemModel.ParentRoundTrip | Plugins/FileTransfer/RemoteFileSystemModel.cpp:485-515 | the parent of what is found in a row of a node is that node |
| RemoteTree.RemoteFileSystemModel.AppendChild | Plugins/FileTransfer/RemoteFileSystemModel.cpp:167-184 | a child with a new path goes to the end, one with a known path is dropped, and the tree stays valid |
| RemoteTree.RemoteFileSystemModel.RemoveNode | Plugins/FileTransfer/RemoteFileSystemModel.cpp:643-649 | takes out the node with everything below it, keeps the order of its siblings and the validity of the tree |
| RemoteTree.RemoteFileSystemModel.SetRootPath | Plugins/FileTransfer/RemoteFileSystemModel.cpp:352-368 | an empty or unchanged path changes nothing, another one starts a new tree that waits for nothing |
| RemoteTree.RemoteFileSystemModel.FetchMore | Plugins/FileTransfer/RemoteFileSystemModel.cpp:533-561 | asks if and only if there is a node, it is no file, has a path, was not asked for and is not waited for; then it is Getting and waited for, and otherwise nothing changes; this is the protocol's `Fetch` |
| RemoteTree.RemoteFileSystemModel.Refresh | Plugins/FileTransfer/FrmFileTransfer.cpp:534-544 | resets the node's state and asks if and only if it is no file, has a path and is not waited for |
| RemoteTree.RemoteFileSystemModel.SlotGetDir | Plugins/FileTransfer/RemoteFileSystemModel.cpp:563-609 | a reply waited for marks the node as Ok and appends a node, never asked for and without children, for each shown item whose path is new, with the path and the types of the item; this is the protocol's `Receive` and `Listed`; a reply not waited for changes nothing |
| SquareShell.CellIsBijective | App/Client/ViewSplitter.cpp:67-94 | the closed form from a view's number to its cell and back is a bijection |
| SquareShell.SquaresFill | App/Client/ViewSplitter.cpp:67-76 | the first n*n views fill exactly the square of side n |
| ViewSplitter.Pigeonhole | App/Client/ViewSplitter.cpp:77-88 | rows that all hold n containers hold n times their number together |
| ViewSplitter.RoomFound | App/Client/ViewSplitter.cpp:67-88 | the search for a row with room never fails, whatever the rows |
| ViewSplitter.PlacedTotal | App/Client/ViewSplitter.cpp:89-117 | adding a view adds one container |
| ViewSplitter.TargetIsCell | App/Client/ViewSplitter.cpp:77-94 | the greedy search finds the cell of the closed form |
| ViewSplitter.ViewsFollowCells | App/Client/ViewSplitter.cpp:67-94 | views added one by one to an empty splitter are at their closed-form cells, all of them |
| ViewSplitter.FocusLostIff | App/Client/ViewSplitter.cpp:144-168 | removing the current view while others remain leaves none current if and only if it was alone in its row, the next and all earlier rows are empty, and a later row is not |
| ViewSplitter.FocusCanBeLost | App/Client/ViewSplitter.cpp:152-159 | opening seven views and closing five reaches rows for which that happens |
| ViewSplitter.NextPlaced | App/Client/ViewSplitter.cpp:146-167 | the view that takes over is another one that is shown |
| ViewSplitter.NextHandsOver | App/Client/ViewSplitter.cpp:146-167 | the view that takes over is the right neighbour, else the left one, else the first of the next row, else the last of the nearest earlier row that has any, else nobody |
| ViewSplitter.HandsOverToOne | App/Client/ViewSplitter.cpp:146-167 | those rules name one view only, or nobody |
| ViewSplitter.Splitter.GetContainerAt | App/Client/ViewSplitter.cpp:341-353 | the container at a cell, or none outside the rows |
| ViewSplitter.Splitter.GetCurrentView | App/Client/ViewSplitter.cpp:197-203 | the view at the current position, if there is one |
| ViewSplitter.Splitter.GetIndex | App/Client/ViewSplitter.cpp:321-339 | finds the cell of every view shown, and only of those |
| ViewSplitter.Splitter.MakeRoom | App/Client/ViewSplitter.cpp:67-76 | a row is added exactly when the square is full, keeping the side within one of the square root of the highest count |
| ViewSplitter.Splitter.FindRow | App/Client/ViewSplitter.cpp:77-88 | the first row with room |
| ViewSplitter.Splitter.AddView | App/Client/ViewSplitter.cpp:55-128 | a new view always finds room, becomes the current one at the end of the first row with room, and counters, map and places keep agreeing |
| ViewSplitter.Splitter.SetCurrentView | App/Client/ViewSplitter.cpp:205-225 | a view shown becomes current; anything else changes nothing |
| ViewSplitter.Splitter.FindNext | App/Client/ViewSplitter.cpp:147-167 | the three branches and the two loops find the view that those rules name |
| ViewSplitter.Splitter.Detach | App/Client/ViewSplitter.cpp:170-180 | the container leaves row, map and count, and those to its right move one to the left |
| ViewSplitter.Splitter.RemoveView | App/Client/ViewSplitter.cpp:130-195 | the others keep their order, a current view that stays is still current although it may move, one that goes hands over to its right neighbour, else the left one, else the first of the next row, else the last of the nearest earlier row that has any; the return value tells whether one is current |
| Settings.WriteAllHolds | Src/Parameter.cpp:81-101 | what was written can be read back if and only if no key was given two values |
| Settings.WriteAllFrame | Src/Parameter.cpp:81-101 | other keys are untouched |
| Parameter.WrittenIsPrefix | Src/Parameter.cpp:81-101 | saving writes the tree's entries from the front, all of them exactly when no OnSave fails |
| Parameter.LoadRestores | Src/Parameter.cpp:60-79 | loading from a store that holds a tree's entries gives that tree's values, in every node |
| Parameter.SaveThenLoad | Src/Parameter.cpp:60-101 | save, over any store, then load gives every value back if and only if no full key has two values in the tree |
| Parameter.SaveFrame | Src/Parameter.cpp:81-101 | keys outside the tree are untouched, also when saving fails half way |
| Parameter.SaveStopsAtFailure | Src/Parameter.cpp:92-96 | keys that come after a failure keep what they had, and the failure is returned |
| Parameter.WrittenUpToFailure | Src/Parameter.cpp:81-101 | saving visits every parameter after its parent, with the prefixes from the root down and a slash after each before its keys; it writes the keys of all visits up to the first that fails, with those of that one, in order, and returns what that one returned |
| Parameter.LoadedUpToFailure | Src/Parameter.cpp:60-79 | loading visits in the same order under the same keys; every parameter up to the first that fails, with that one, has the value of the store for each key it has and keeps its own for the others, all later ones are unchanged, and what the failing one returned is returned |
| Parameter.Save | Src/Parameter.cpp:81-101 | writes exactly those entries under the open groups and leaves the group stack as it was on every exit |
| Parameter.OnSave | Src/Parameter.cpp:88-90 | a derived class writes its own keys under the open groups |
| Parameter.Load | Src/Parameter.cpp:60-79 | computes the loaded tree and leaves the group stack as it was on every exit |
| TransferList.DigitsInjective | Plugins/FileTransfer/ListFileModel.cpp:431-431 | the numbers of two groups are written alike only if they are equal |
| TransferList.DigitsAreDecimal | Plugins/FileTransfer/ListFileModel.cpp:431-431 | they are decimal, without leading zeros |
| TransferList.GroupsDisjoint | Plugins/FileTransfer/ListFileModel.cpp:459-461 | the groups of different transfers share no key, whatever follows |
| TransferList.EntriesAgree | Plugins/FileTransfer/ListFileModel.cpp:455-477 | saving a list gives no key two values, the count included |
| TransferList.SaveThenLoad | Plugins/FileTransfer/ListFileModel.cpp:425-477 | saving a list over any older store and loading it gives the list with every state but Finish and Fail turned into No |
| TransferList.LoadThenSave | Plugins/FileTransfer/ListFileModel.cpp:425-477 | saving again what was loaded changes nothing |
| TransferList.SavedFields | Plugins/FileTransfer/ListFileModel.cpp:455-477 | key by key what saving leaves in the settings for the count and the i-th transfer; the state is 0x20 or 0x40 for those two and 0x01 for any other |
| TransferList.LoadedFields | Plugins/FileTransfer/ListFileModel.cpp:429-430 | as many transfers are loaded as the count says, none if it is missing or negative |
| TransferList.LoadedOneFields | Plugins/FileTransfer/ListFileModel.cpp:431-448 | key by key what the i-th one gets, with the default for each missing key; the state is 0x20 or 0x40 if that is stored, and else 0x01 |
| TransferList.ListFileModel.Save | Plugins/FileTransfer/ListFileModel.cpp:455-477 | the loop writes the count and every group |
| TransferList.ListFileModel.Load | Plugins/FileTransfer/ListFileModel.cpp:425-453 | the loop appends the transfers the store has |
| ViewerGeometry.AspectRectIsLargest | Src/FrmViewer.cpp:69-95 | the rectangle is inside the window, centred, of the desktop's ratio, and no rectangle of that ratio that fits is wider or higher |
| ViewerGeometry.AxisRoundTrip | Src/FrmViewer.cpp:162-178 | one coordinate goes there and back unchanged, from either side |
| ViewerGeometry.ToAndFromRemote | Src/FrmViewer.cpp:149-216 | a point the viewer accepts comes back to where it was |
| ViewerGeometry.FromAndToRemote | Src/FrmViewer.cpp:149-216 | a point of the desktop drawn in the viewer is accepted there and is that point |
| ViewerGeometry.AcceptedIffOnDesktop | Src/FrmViewer.cpp:167-177 | with the ratio kept, a point is accepted if and only if some point of the desktop is drawn there |
| ViewerGeometry.RemoteIs | Src/FrmViewer.cpp:149-185 | the point of the desktop that a point of the window is carried to, for each mode by an equation: the same point, times the zoom factor the point of the window, the same part of the window, or the same part of the rectangle for points in it and no others |
| ViewerGeometry.DrawnAt | Src/FrmViewer.cpp:187-216 | where a point is drawn, by the same equations, also outside the desktop |
| FtpServer.DisconnectedCount | Src/FrmViewServer.cpp:91-105 | a disconnect takes one row of the address and port away, if there is one |
| FtpServer.RemoveAllPeers | Plugins/FtpServer/BackendFtpServer.cpp:190-198 | dropping a client takes exactly one of its peers away |
| FtpServer.ConnectMirrors | Plugins/FtpServer/BackendFtpServer.cpp:177-186 | admitting and signalling keeps the table, once signals have arrived, equal to the clients as a multiset |
| FtpServer.DisconnectMirrors | Plugins/FtpServer/BackendFtpServer.cpp:190-200 | so does dropping and signalling |
| FtpServer.FrmViewServer.SlotConnected | Src/FrmViewServer.cpp:72-89 | the row is appended |
| FtpServer.FrmViewServer.SlotDisconnected | Src/FrmViewServer.cpp:91-105 | the search loop removes the first row of the address and port |
| FtpServer.BackendFtpServer.InFilter | Src/ParameterCompone/ParameterFilter.cpp:96-108 | the enumeration that stops at the first hit finds the address exactly if some subnet has it |
| FtpServer.BackendFtpServer.Filtered | Plugins/FtpServer/BackendFtpServer.cpp:141-170 | filtered exactly when on the black list and not on the white one |
| FtpServer.BackendFtpServer.OnFilter | Plugins/FtpServer/BackendFtpServer.cpp:135-188 | refused if and only if there is no socket, or some subnet of the black list and none of the white list has the address, or the limit is not negative and reached; otherwise admitted and signalled; the limit is never passed and the table keeps mirroring |
| FtpServer.BackendFtpServer.SlotDisconnected | Plugins/FtpServer/BackendFtpServer.cpp:190-200 | the client goes, with one signal, and the table keeps mirroring |
| FtpServer.BackendFtpServer.Deliver | Src/FrmViewServer.cpp:72-105 | a signal reaching the window keeps the table mirroring |
| FtpServer.BackendFtpServer.TableMirrorsSockets | Src/FrmViewServer.cpp:72-105 | with no signal on its way the table shows exactly the clients |
| Password.SaveThenLoad | Src/ParameterOperate.cpp:83-193 | a password that is not empty comes back without a dialog, whether the key was there, was typed into the dialog or was refused |
| Password.LaterSession | Src/ParameterOperate.cpp:83-137 | in a session without the key, loading opens one dialog and typing the key gives the password back and keeps the key, unless the stored text already matches under the secret used without a key |
| Password.WrongKeyTyped | Src/ParameterOperate.cpp:108-136 | a dismissed or empty dialog, or a key that does not match, costs one dialog and fails |
| Password.SaveAsksFirst | Src/ParameterOperate.cpp:154-178 | after saving the user may not be asked any more |
| Password.EmptyPasswordKeepsOld | Src/ParameterOperate.cpp:187-188 | saving an empty password leaves the older one to be loaded |
| Password.RemoveThenLoad | Src/ParameterOperate.cpp:142-148 | a removed password is not loaded |
| Password.SavedValues | Src/ParameterOperate.cpp:139-193 | saving asks if the key is missing and may be asked for, and takes what is typed; the stored text is then encoded with the key if there is one, else with the random password if there is one, else with the default, the digest is that of password and key, and all other settings stay |
| Password.LoadedWithKey | Src/ParameterOperate.cpp:91-107 | with a key, loading decodes with that key, never asks, and succeeds if and only if the digest agrees |
| Password.LoadedWithoutKey | Src/ParameterOperate.cpp:91-136 | without one, loading decodes with the random password or the default; only if that gives no text of the stored digest and asking is allowed is the user asked, and a typed key then decodes in its place |
| Password.SavedIsLocked | Src/ParameterOperate.cpp:150-191 | saving with a key in the session, or typed, leaves the password encoded under that key |
| Password.LoadsIffKey | Src/ParameterOperate.cpp:83-137 | under a cipher that gives nothing for another secret, a password saved under a key is loaded if and only if the session has that key or may ask and it is typed; otherwise loading fails and gives nothing |
| Password.NeverWithoutKey | Src/ParameterOperate.cpp:83-193 | whatever a session without the key saves and loads, as long as the key is not typed and that password is not saved over or removed, loading it gives nothing |
| Password.AllCounts | Src/ParameterOperate.cpp:83-193 | over any loads and saves every dialog is counted and none opens once one has been |
| Password.AskedAtMostOnce | Src/ParameterOperate.cpp:108-123 | over any loads and saves at most one dialog opens, and none without a plugin, without the First mode, or after one |
| Password.ParameterOperate.SavePassword | Src/ParameterOperate.cpp:139-193 | computes `Saved`: the stored text is encoded with the key if there is one after the dialog, else with the random password, else with the default; not saving removes both entries |
| Password.ParameterOperate.LoadPassword | Src/ParameterOperate.cpp:83-137 | computes `Loaded`, with its one recursive call; with a key in the session what is stored is decoded with that key |
| MouseInput.ClicksReplay | Service/InputDeviceXLib.cpp:213-238 | replaying the clicks of one event gives its buttons, and no button goes down twice |
| MouseInput.EventsReplay | Service/InputDeviceXLib.cpp:213-239 | the same over every sequence of events: the last mask, and each button strictly alternates |
| MouseInput.ClicksInOrder | Service/InputDeviceXLib.cpp:213-238 | one event clicks exactly the buttons that changed, once each, the left one first and the right one last, down if it is in the new mask |
| MouseInput.InputDeviceXLib.MouseEvent | Service/InputDeviceXLib.cpp:213-239 | sends the clicks of the difference and remembers the buttons |
| MouseInput.ScaledInOrder | Service/InputDeviceWindows.cpp:126-133 | scaled coordinates run from 0 to 65535 in order |
| MouseInput.ScaledIsFloor | Service/InputDeviceWindows.cpp:131-132 | the scaled coordinate is the largest whole number of 65535ths that does not pass the pixel |
| MouseInput.ScaledInjective | Service/InputDeviceWindows.cpp:126-133 | on a screen of at most 65536 pixels different pixels stay different |
| MouseInput.ProductFitsIff | Service/InputDeviceWindows.cpp:131-132 | the product fits a 32-bit int if and only if the coordinate is at most 32768 |

## Left out

- libssh, QSettings, Qt's containers, threads, sockets and the cipher are environments: answers, a map with a
  group stack, sequences, interleaved steps and a pair of functions of which decoding undoes encoding (and, for two
  theorems, gives nothing with another secret).
- The branch for libssh before 0.11, and a wait or begin call that fails while the session reports no error
  (lines 602-611, 692-701): the source then adds -1 to its counters.
- Q_ASSERT: a release build is modelled. A local read of an upload that is short is taken as it is; a local write
  that is shorter than asked without failing is not modelled.
- The 64-bit counters are unbounded, and a server that reports a length limit of zero is not modelled.
- Buffers and aio handles have no lifetime; sftp handles have one (`LifeCycle`).
- A transfer started again keeps the size it showed: `slotTransferSize` only adds, and the invariants say
  by how much.
- JobProtocol.ActionKeeps: a visit of an entry is one step; only erasing and publishing are separate steps.
- `GetDir`, the listing in one call, which nothing calls, and sizes, dates and permissions
  of entries. A reader may be asked to open again after `Request denied`, as in the source, without a bound.
- RemoteTree.RemoteFileSystemModel.SlotGetDir: requires that a node that is waited for has not been deleted. The
  source writes through the pointer all the same, and what happens then is not modelled: the listing protocol
  marks such a run as broken and stops there. `RemovalSafeIff` says exactly when that can happen.
- Nodes of the remote tree are never given the address of an older one; in the source a freed address can come back.
- RemoteTree.RemoteFileSystemModel.RemoveNode: `RemoveChild` also accepts an index one past the end, which its
  only caller never passes.
- `CRemoteFileSystemModel::index(const QString&)`, renaming, sizes, times and permissions of nodes.
- ViewSplitter.Splitter.AddView: the view must not be shown already; the source marks that case as open. Focus
  events of the toolkit, full screen and the sizes of rows are not modelled, and a container is its view.
- Removal of transfers from the list by row or by identity, and the local permission, priority and identity of
  a transfer, which are not saved.
- QSettings normalises keys and converts values, and numbers have a width: here keys are texts and numbers are
  unbounded. `FinishTime` is its text.
- Parameter.Save: the flag `m_bModified` is read but not cleared here; the file-level Save and Load clear it.
- The viewer modes OriginalCenter, Auto and Disable, empty windows and desktops, and rounding: the geometry is
  over the reals.
- The swapped-button branch, the wheel, the virtual desktop and one-pixel screens of the Windows input code; its
  button tests are those of the X11 code.
- Screen capture, player, recording, dialogs, menus, plugin loading, translations, statistics and speed display:
  input and output, or user interface.
