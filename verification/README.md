# Forgetty: a verified model of its replicated state and its stream algorithms

Forgetty is a terminal emulator in two parts: a daemon that owns workspaces,
tabs, panes and their output, and a GTK client that mirrors them and draws. This
project models the parts where state is replicated, rebuilt or streamed, and the
algorithms around them, and proves what they keep, where they keep it only under
a condition, and what that condition is.

| module | models |
|---|---|
| `WorkspaceReplica` | the daemon's and GTK's workspace lists, their operations as methods of two classes, and the step system formed by both and the event channel |
| `WorkspaceConvergence` | invariants of that system over all runs, and the exact conditions under which it fails to converge |
| `ActiveWorkspace` | the active index and the active workspace over every run |
| `LostEvents` | which lost events and replies GTK can do without, and what the others do |
| `UnreadMoves` | a local move made over any number of unread moves by others |
| `EchoQueue` | the queue of own requests whose echoes are dropped, for any kind of entry, and its use for pane focus |
| `PanedTree` | GTK's tree of `Paned` widgets with parent pointers: split, close, resize, leaf walk, as methods that rewire widgets in place |
| `PaneGeometry` | laying out a split tree in whole pixels, and moving focus between panes |
| `SessionLayout` | the daemon's layout and pane registry: tab creation, in-place split, pane closing |
| `SplitRestore` | cold start: rebuilding saved split trees and tabs by splits of one shared layout, and finding saved panes again |
| `ColdStart` | the restore loop over all workspaces, and what saving afterwards writes |
| `OutputStream` | the byte log, the bounded event channel, and the stream served to a remote client |
| `StreamDelivery` | what that client has received after any interleaving |
| `Framing` | length-prefixed frames, and the client's frame reader |
| `CodeBlocks` | finding bordered and coloured rectangles on a screen |
| `SelectionCopy` | copying a selection page by page, and joining its rows |
| `OscScanner` | finding desktop notifications in raw output |
| `CivilDate` | seconds since the epoch to a date, and back |
| `SaveProtocol` | the three tasks that keep the session file up to date |
| `Bytes`, `Directions`, `Numbers`, `Parity`, `Sequences`, `Wrappers` | shared value types, and facts about sequences and permutations |

A method that changes state is specified by a function of the old state
(`ensures State() == Step(old(State()), ...)`), and the theorems are about that
function. What the function means is stated beside it in terms that do not mention
it: the method's new rows, positions, bytes or messages one by one. Identifiers (workspaces, tabs, panes) are numbers, minted upwards where
the program draws random UUIDs.

## Where the code and its documentation differ

- **The active workspace.** The handler of deletion events accepts GTK's only
  workspace (`crates/forgetty-gtk/src/app.rs:2993-3003`) and leaves an empty list,
  which the program indexes later (`crates/forgetty-gtk/src/app.rs:1392`,
  `crates/forgetty-gtk/src/app.rs:8124`). One client and one lost reply are enough
  (`LostReplyEmptiesList`). Over every run the active index is in range as long as
  this does not happen (`InRangeUnlessEmptied`), and the active workspace is
  replaced by exactly the actions that should (`ActiveKeptIff`).
- **A lossy layout stream.** GTK's list is brought up to date by layout events
  only, and the task that forwards them reads a channel of 1024 events that all
  terminal output goes through; when it falls behind it loses events and goes on
  (`crates/forgetty-socket/src/server.rs:764-766`), and GTK never asks again. The
  convergence theorems therefore have delivery as a hypothesis: of every event but
  deletions of workspaces that GTK has deleted already. `MissKeepsConverging` says
  that this is exact: the loss of a deletion does no harm if and only if GTK has not
  that workspace, and the loss of a move if and only if it is out of range. The
  latter holds when no deletion behind the move takes out a workspace GTK has;
  otherwise the deletion may undo the move (`DeletionUndoesLostMove`).
  After the loss of an own move's echo the queue is never empty again
  (`BehindForEver`), and the next move leaves the lists equal if and only if it is
  the same exchange (`MoveAfterMissedEcho`). After the loss of another client's
  deletion GTK shows the workspace until it deletes that row itself (`StaleStays`);
  doing so makes the lists equal if and only if another row follows, for that one is
  deleted too, and there were more than two (`DeletionAfterLostDeletion`). After the loss of another client's move
  nothing GTK does makes the lists equal, its own deletions included, as long as no
  pending index is stranded: a deletion that hits different workspaces on the two
  sides costs GTK one more (`MissedOtherMove`). The exception is a second deletion,
  before the event of the first is read, of the row which that event will remove
  (`TwoDeletionsAgree`).
- **The moment of starting.** The layout is fetched first
  (`crates/forgetty-gtk/src/app.rs:2213`) and the events are subscribed to later
  (`crates/forgetty-gtk/src/app.rs:2416`), so GTK starts well if and only if nothing
  changes in between (`StartConvergesIffUnchanged`).
- **Lost replies.** An RPC gives up after 500 ms
  (`crates/forgetty-gtk/src/daemon_client.rs:194`), so the daemon can have made a
  move that GTK reports as failed. Reading its event repairs the list. A local
  move made before that event is read leaves the lists different for good, unless
  it is the same exchange or touches neither row (`MoveOverLostReply`). With any
  number of unread moves the condition is that those before the first same exchange
  leave the two rows to each other (`MoveOverUnreadMoves`). A creation
  or duplication whose reply is lost is not repaired: no event tells GTK of the new
  workspace, so its list never holds it (`LostCreation`, `LostCreationStaysUnseen`).
- **Deleting in the echo window.** The bounds check at
  `crates/forgetty-gtk/src/app.rs:3083` returns before the queue is looked at. A
  delete while echoes are outstanding strands the queue's head exactly if some
  pending index no longer exists (`DeleteInEchoWindow`). Own moves behind it are
  then applied a second time (`DeleteInEchoWindowLists`), later ones too
  (`StrandedHeadAppliesTwice`).
- **Creating a workspace** moves GTK to it and does not tell the daemon
  (`CreateLeavesActiveBehind`); switching and duplicating do.
- **Focus queue.** It is filled before every request while the daemon sends
  nothing for an unchanged value or an unknown tab or pane, so it drains exactly if
  each request is accepted and changes the recorded pane (`FocusQueueDrains`).
- **Moving focus past a thin pane.** A pane no wider than a divider handle can lie
  wholly opposite the end of another divider. Focus then jumps over what is next to
  it, or stays put (`ThinPaneSkipsItsNeighbours`); everywhere else it moves to a
  neighbour (`NavigationLandsOnNeighbour`).
- **Closing a pane of a split.** The comments of the close handler
  (`crates/forgetty-socket/src/handlers.rs:395-399`) say that the sibling is promoted; `close_pane` in the session manager
  keeps the closed pane's leaf (`ClosePane`), and saving writes it out, so it
  comes back at the next start (`SnapshotNamesEveryLeaf`).
- **Pane identifiers at cold start.** The comment at `src/daemon.rs:722-726` says
  they are minted anew; the code reuses the recorded ones.
- **Focus at cold start.** A collapsed split hides even the pane that survives it
  (`CollapseHidesItsAnchor`), and saved tab i is paired with live tab i even when
  an earlier tab could not be created (`LostTabShiftsFocus`). The pane found for tab
  i is the saved one if and only if the first shells of all tabs up to i have
  started and no split above the pane has failed (`FocusRightIff`).
- **Empty workspaces at cold start.** The repair of empty workspaces looks at the
  saved tabs only (`src/daemon.rs:328`), not at whether any of them came up as its
  comment says (`src/daemon.rs:318-323`): a workspace all of whose tabs are lost
  stays without tabs (`EmptyIffNoneStarted`).
- **Lag.** The comment at `src/iroh_terminal.rs:506-509` takes the receiver to be
  past the lag point. It stands at the oldest event still held, so the replay and
  that backlog overlap: as many bytes arrive twice as the shorter of the two has
  (`LagOverlap`). Closing a pane drops its byte log, so a lag handled after the close
  clears the screen and replays nothing (`LagAfterClose`); the client can then be
  told that the pane is gone without a byte of it (`GoneWithNothing`). It has the
  pane's last bytes if and only if the pane was open when the last replay was sent
  or the backlog reaches back far enough (`GoneHasRingIff`). If the closing event
  itself was dropped, the client is never told (`SkippedCloseIsSilent`).
- **Selections past the end.** The scroll loop of the copy ends exactly if the
  last selected row still exists (`CopyEndsIffRowsExist`). The comment that the
  last selected row is never wrapped does not hold for a row the terminal itself
  marked as wrapped.
- **Saving.** A periodic save whose write is delayed past a later change, the
  watcher's save and the debounce save puts the old layout back with nothing
  pending (`SlowPeriodicWriteLoses`); so does a failed debounce write. These are
  the only ways (`StepLosesOrKeeps`).

## Model

| member | source | states |
|---|---|---|
| `WorkspaceReplica.Daemon.MoveWorkspace` | crates/forgetty-session/src/manager.rs:361-407 | swaps two workspaces and sends one event, does nothing for equal indices, refuses indices out of range |
| `WorkspaceReplica.Daemon.DeleteWorkspace` | crates/forgetty-session/src/manager.rs:431-510 | removes a workspace, moves the active index with it, sends one event; refuses the last workspace and indices out of range |
| `WorkspaceReplica.Daemon.CreateWorkspace` | crates/forgetty-session/src/manager.rs:235-258 | appends a workspace and leaves the active one alone |
| `WorkspaceReplica.Daemon.DuplicateWorkspace` | crates/forgetty-session/src/manager.rs:549-715 | inserts the copy after its original; the active index follows the workspace it named |
| `WorkspaceReplica.Daemon.SetActiveWorkspace` | crates/forgetty-session/src/manager.rs:1222-1245 | records an existing index as active, ignores others |
| `WorkspaceReplica.WorkspaceManager.MoveWorkspaceUp` | crates/forgetty-gtk/src/app.rs:9824-9888 | delivered, it exchanges the row with the one above it on both sides, pushes the two indices and follows the active row, and the daemon sends one event of the same two; with the reply lost only the daemon does; refused, or without a row above, nobody does |
| `WorkspaceReplica.WorkspaceManager.MoveWorkspaceDown` | crates/forgetty-gtk/src/app.rs:9898-9959 | the same with the row below |
| `WorkspaceReplica.WorkspaceManager.DeleteWorkspaceAtIndex` | crates/forgetty-gtk/src/app.rs:10046-10121 | delivered, both sides lose just that row and one event names its index and workspace; the active index moves with its workspace or to the last row; a lost reply leaves GTK as it was, and the last row is never deleted |
| `WorkspaceReplica.WorkspaceManager.CreateAndSwitchToNewWorkspace` | crates/forgetty-gtk/src/app.rs:7976-8160 | the new row is the last one on both sides and GTK is on it, the daemon stays where it was; GTK giving up once the daemon has created it counts as a lost reply |
| `WorkspaceReplica.WorkspaceManager.DuplicateWorkspace` | crates/forgetty-gtk/src/app.rs:9386-9645 | the copy stands right behind its original on both sides, which are then both on it; GTK inserts at the daemon's index clamped to its list |
| `WorkspaceReplica.WorkspaceManager.SwitchWorkspace` | crates/forgetty-gtk/src/app.rs:7741-7800 | GTK is on the row afterwards, and so is the daemon if it has that row; no list, queue or event changes |
| `WorkspaceReplica.WorkspaceManager.ConsumeReorderSelfEcho` | crates/forgetty-gtk/src/app.rs:2772-2786 | pops the head exactly if it is the event's pair in either order, and changes nothing else |
| `WorkspaceReplica.WorkspaceManager.HandleLayoutEvent` | crates/forgetty-gtk/src/app.rs:2966-3128 | a reorder out of range changes nothing; one that is the head of the queue, either way round, pops it; any other exchanges its two rows; a deletion takes out the first row of that workspace, wherever it is |
| `WorkspaceReplica.MoveUpRows` | crates/forgetty-gtk/src/app.rs:9849-9869 | in the step system: after a delivered move up row i - 1 is the old row i and row i the old row i - 1 on each side, every other row is as it was, and the entry and the event are both (i, i - 1) |
| `WorkspaceReplica.MoveDownRows` | crates/forgetty-gtk/src/app.rs:9923-9941 | the same for a move down with i + 1 |
| `WorkspaceReplica.OtherClientRows` | crates/forgetty-session/src/manager.rs:361-510 | another client's move or deletion changes the daemon's rows and adds its event; GTK is as it was |
| `WorkspaceReplica.OutboxRows` | crates/forgetty-socket/src/server.rs:764-766 | GTK reads the oldest event first, and a lagging stream loses one event and keeps the others in order |
| `WorkspaceConvergence.QuietMeansMirrored` | crates/forgetty-gtk/src/app.rs:166-181 | the recursive invariant holds if and only if the queue is, pair for pair and up to reversal, the reorders still to be read, all in range, and no outstanding deletion concerns a present workspace |
| `WorkspaceConvergence.AloneRunMirrors` | crates/forgetty-gtk/src/app.rs:3055-3128 | with one client, no lost reply and no event lost but deletions of workspaces GTK has deleted already, after every run of local actions and reads (deleting only while every pending index also exists in the shorter list) the lists are equal and the queue mirrors the events in flight |
| `WorkspaceConvergence.RunConverges` | crates/forgetty-gtk/src/app.rs:9824-9959 | after every run in which GTK acts in quiet states only (what is outstanding being echoes of its own), replies to its moves and deletions may be lost and other clients act at any time, reading what is outstanding makes the lists equal and empties the queue; the active workspaces agree unless one was created. It takes as given that replies to creations arrive and that the stream loses no event but deletions of workspaces GTK has deleted already |
| `WorkspaceConvergence.StepConverges` | crates/forgetty-gtk/src/app.rs:2966-3128 | each single action allowed there keeps that |
| `WorkspaceConvergence.DrainRuns` | crates/forgetty-gtk/src/app.rs:3055-3128 | reading event by event reaches the state the convergence theorems speak of |
| `WorkspaceConvergence.StartConvergesIffUnchanged` | crates/forgetty-gtk/src/app.rs:2213-2416 | the state built from the fetched layout is a starting point for both theorems if and only if the daemon's has not changed when the events are subscribed to |
| `LostEvents.RunOrderly` | crates/forgetty-session/src/manager.rs:431-510 | in every run the outstanding deletions are of different workspaces that the daemon no longer has, and no outstanding move is of a row with itself |
| `LostEvents.MissKeepsConverging` | crates/forgetty-socket/src/server.rs:764-766 | in any converging state the loss of a deletion does no harm if and only if GTK has not that workspace; the loss of a move, if no later event deletes a workspace GTK has, if and only if it is out of range |
| `LostEvents.DeletionUndoesLostMove` | crates/forgetty-gtk/src/app.rs:2982-2996 | a lost move that a later deletion makes up for |
| `LostEvents.PhasesStayApart` | crates/forgetty-gtk/src/app.rs:3083-3110 | each move read in range either pops an entry or exchanges two rows, so two states out of phase stay so whatever both read |
| `LostEvents.MissedEcho` | crates/forgetty-socket/src/server.rs:764-766 | in a quiet state the two sides still converge after a loss if and only if the event is the echo of a deletion |
| `LostEvents.MissedEchoLists` | crates/forgetty-socket/src/server.rs:764-766 | whichever echo is lost, GTK ends with the daemon's list and exactly the moves left unmatched made on top of it |
| `LostEvents.BehindForEver` | crates/forgetty-gtk/src/app.rs:2772-2786 | once a move's echo is lost, no run of local actions, reads and further losses empties the queue |
| `LostEvents.MoveAfterMissedEcho` | crates/forgetty-gtk/src/app.rs:3083-3110 | after the loss of the last move's echo and another local move the lists agree if and only if the moves are the same exchange |
| `LostEvents.MissedOtherMove` | crates/forgetty-socket/src/server.rs:764-766 | after the loss of another client's move, at the end of every run of a lone client that loses nothing, its deletions included while pending indices survive and the row's deletion is not on its way, GTK has when all is read fewer workspaces than the daemon, or as many in another order |
| `LostEvents.TwoDeletionsAgree` | crates/forgetty-gtk/src/app.rs:2982-2996 | a run with a deletion of a row whose deletion is on its way, after which the lists agree |
| `LostEvents.StaleStays` | crates/forgetty-gtk/src/app.rs:2982-2996 | over every run, whatever is lost and whoever acts, a workspace that only GTK has stays in its list, which differs from the daemon's also when all is read, until GTK deletes that row itself |
| `LostEvents.DeletionAfterLostDeletion` | crates/forgetty-gtk/src/app.rs:10065-10121 | after the loss of another client's deletion of row j and an own deletion of row m the lists agree if and only if m is j and not the last row, and there were more than two |
| `LostEvents.LostDeletionDiverges` | crates/forgetty-socket/src/server.rs:764-766 | a lost deletion that leaves the lists different with nothing outstanding |
| `LostEvents.LostCreation` | crates/forgetty-gtk/src/daemon_client.rs:183-219 | after a lost reply to a creation or duplication, in any converging state, reading all leaves GTK with the daemon's list of before and the daemon with one more |
| `LostEvents.LostCreationStaysUnseen` | crates/forgetty-gtk/src/app.rs:2966-3128 | over every later run GTK's list lacks that workspace, and the lists agree only if the daemon's does too |
| `WorkspaceConvergence.SwapFollowsActive` | crates/forgetty-gtk/src/app.rs:3105-3110 | a move permutes the list and keeps the same workspace active |
| `WorkspaceConvergence.RemoveFollowsActive` | crates/forgetty-gtk/src/app.rs:10106-10121 | a delete removes just that workspace and keeps another active one; the local delete and the event handler compute the same list and index, and the handler empties a list of one |
| `ActiveWorkspace.StepStaysGood` | crates/forgetty-gtk/src/app.rs:2993-3003 | any action keeps both views valid, unless it reads the deletion of the only workspace GTK has, and exactly then it empties GTK's list |
| `ActiveWorkspace.RunStaysGood` | crates/forgetty-gtk/src/app.rs:9598-9635 | over every run, whatever is lost and whoever acts, the daemon's view is valid and GTK's is valid or empty |
| `ActiveWorkspace.InRangeUnlessEmptied` | crates/forgetty-gtk/src/app.rs:2993-3003 | the active index is in range at every moment of a run if and only if no action of it empties the list |
| `ActiveWorkspace.ActiveKeptIff` | crates/forgetty-gtk/src/app.rs:9863-9876 | an action keeps GTK's active workspace if and only if it is no switch, creation or duplication and neither deletes that workspace nor reads that it was deleted |
| `ActiveWorkspace.ActiveKeptOverRun` | crates/forgetty-gtk/src/app.rs:9863-9876 | the same over every run |
| `ActiveWorkspace.LostReplyEmptiesList` | crates/forgetty-gtk/src/app.rs:2993-3003 | a run of one client with one lost reply that empties the list |
| `ActiveWorkspace.LostCreationEmptiesList` | crates/forgetty-gtk/src/app.rs:2993-3003 | a shorter one with another client's deletion |
| `WorkspaceConvergence.InsertKeepsOthers` | crates/forgetty-gtk/src/app.rs:9601-9626 | an insertion adds one workspace, shifts the rest and keeps them distinct |
| `WorkspaceConvergence.MoveOverLostReply` | crates/forgetty-gtk/src/app.rs:9845-9856 | in any quiet state, whatever is outstanding, after a lost reply and another local move the lists agree if and only if the moves are the same exchange or share no row |
| `UnreadMoves.MoveOverUnreadMoves` | crates/forgetty-gtk/src/app.rs:9845-9876 | in any quiet state, after any moves that GTK has not read of and a local move, the lists agree if and only if the moves before the first same exchange leave the workspaces in its two rows to those rows |
| `WorkspaceConvergence.LostReplyDiverges` | crates/forgetty-gtk/src/daemon_client.rs:183-219 | three workspaces on which they do not |
| `WorkspaceConvergence.StrandedHeadStays` | crates/forgetty-gtk/src/app.rs:3083-3089 | a head out of range stays whatever events are read |
| `WorkspaceConvergence.DeleteInEchoWindow` | crates/forgetty-gtk/src/app.rs:3077-3091 | after a delete in the echo window the queue drains if and only if every pending index exists in the shorter list |
| `WorkspaceConvergence.DeleteInEchoWindowLists` | crates/forgetty-gtk/src/app.rs:3077-3110 | and then GTK ends with the daemon's list and exactly the moves left unmatched made on top of it |
| `WorkspaceConvergence.StrandedHeadAppliesTwice` | crates/forgetty-gtk/src/app.rs:3083-3105 | a run in which a stranded head makes GTK apply its own move twice |
| `WorkspaceConvergence.CreateLeavesActiveBehind` | crates/forgetty-gtk/src/app.rs:8138-8155 | after a creation in a settled state the active workspaces differ |
| `EchoQueue.FocusQueue.Push` | crates/forgetty-gtk/src/app.rs:5580-5582 | appends the request's triple |
| `EchoQueue.FocusQueue.ConsumeActivePaneSelfEcho` | crates/forgetty-gtk/src/app.rs:2797-2811 | pops the head exactly if it is the event's triple with a pane, and changes nothing else |
| `EchoQueue.FifoAcknowledgement` | crates/forgetty-gtk/src/app.rs:2772-2811 | for any interleaving, popped entries followed by waiting ones are the pushed ones in order, each popped by one matching event; every event pops one entry or is passed on |
| `EchoQueue.OneRequest` | crates/forgetty-session/src/manager.rs:1280-1302 | the daemon answers a request with the event of its workspace, tab and pane if it finds them and has another pane recorded for the tab, and otherwise with none |
| `EchoQueue.TwoRequests` | crates/forgetty-session/src/manager.rs:1280-1302 | a second request is judged by what the first has recorded for the same tab, and by nothing else |
| `EchoQueue.MirroringDrains` | crates/forgetty-gtk/src/app.rs:2758-2786 | if events mirror the pushes nothing is applied a second time and what waits is what has not been echoed |
| `EchoQueue.EmittedAll` | crates/forgetty-session/src/manager.rs:1257-1302 | the daemon echoes every request if and only if it finds each request's tab and pane and each changes the recorded pane, and then in order |
| `EchoQueue.FocusQueueDrains` | crates/forgetty-gtk/src/app.rs:5570-5599 | once all echoes have arrived the focus queue is empty if and only if no request was refused and each changed the recorded pane |
| `PanedTree.SplitTreeNames` | crates/forgetty-gtk/src/app.rs:4420-4422 | a split adds just the new name, and nothing if the pane is not there |
| `PanedTree.CloseTreeNames` | crates/forgetty-gtk/src/app.rs:4742-4748 | a close removes just that name |
| `PanedTree.CloseUndoesSplit` | crates/forgetty-gtk/src/app.rs:4750-4784 | closing a just-split pane gives back the tree, at the root and nested, on either side |
| `PanedTree.SplitAt` | crates/forgetty-gtk/src/app.rs:4420-4512 | by position: the pane makes way for a split of the orientation asked for, the new pane on the side asked for; subtrees without it stay where they are, and the splits around it keep their orientation |
| `PanedTree.CloseAt` | crates/forgetty-gtk/src/app.rs:4742-4784 | by position: what is on the other side takes the place of the split, and that is where the focus goes |
| `PanedTree.CloseElsewhereAt` | crates/forgetty-gtk/src/app.rs:4742-4784 | every subtree that holds neither the pane nor its split stays where it is |
| `PanedTree.FirstNameAt` | crates/forgetty-gtk/src/app.rs:4786-4790 | the pane that gets the focus is the one reached by going to first halves |
| `PanedTree.ParentHolds` | crates/forgetty-gtk/src/app.rs:4453-4458 | in a well-wired tree a widget below the root sits in exactly one slot of its parent |
| `PanedTree.SlotsHold` | crates/forgetty-gtk/src/app.rs:4544-4560 | both slots of a paned are filled, by different widgets whose parent it is |
| `PanedTree.SplitKeepsWiring` | crates/forgetty-gtk/src/app.rs:4464-4512 | the rewiring of a split leaves a well-wired tree with two more widgets |
| `PanedTree.LinkedAfterClose` | crates/forgetty-gtk/src/app.rs:4730-4784 | the rewiring of a close leaves a well-wired tree |
| `PanedTree.CloseShapeWidgets` | crates/forgetty-gtk/src/app.rs:4738-4784 | a close drops the pane and the paned above it and no other widget |
| `PanedTree.CollectLeaves` | crates/forgetty-gtk/src/app.rs:5378-5397 | the leaf walk finds all panes of the subtree, first slot first |
| `PanedTree.Tab.SplitPane` | crates/forgetty-gtk/src/app.rs:4310-4538 | splits the focused pane in place, before or after; keeps names and registry equal, and on any failure changes nothing |
| `PanedTree.Tab.RewireForSplit` | crates/forgetty-gtk/src/app.rs:4435-4512 | puts the new paned in the pane's place, wiring included, with the new pane in its start slot if it is to come before and in its end slot if not |
| `PanedTree.Tab.SwapForPaned` | crates/forgetty-gtk/src/app.rs:4464-4512 | says of every widget what its parent and slots are afterwards |
| `PanedTree.Tab.ClosePaneByName` | crates/forgetty-gtk/src/app.rs:4604-4791 | closes a pane, promotes its sibling and focuses the first pane left there; ignores unknown names; the only pane closes the tab |
| `PanedTree.Tab.CloseInSplit` | crates/forgetty-gtk/src/app.rs:4703-4790 | the same for the widgets |
| `PanedTree.NearestIsDeepest` | crates/forgetty-gtk/src/app.rs:4987-5012 | the first fitting paned met when climbing is the deepest one seen from the root |
| `PanedTree.ClimbChain` | crates/forgetty-gtk/src/app.rs:4992-5012 | parent pointers lead through all paneds above a pane, in order, to the root |
| `PanedTree.Tab.FindDivider` | crates/forgetty-gtk/src/app.rs:4987-5017 | finds the deepest ancestor of the orientation with the pane in the wanted slot, else the deepest of the orientation, else none |
| `PanedTree.ChosenIsTarget` | crates/forgetty-gtk/src/app.rs:4987-5017 | that divider is the one chosen by climbing from the pane |
| `PanedTree.Tab.ResizePane` | crates/forgetty-gtk/src/app.rs:4948-5027 | moves one divider by 20 to the right or down, by -20 to the left or up, as far as its paned allows, and no other: the nearest of the orientation with the pane on the side that grows, else the nearest of the orientation, else none; in the first case the pane's half never shrinks, and grows unless the divider is at its end |
| `PaneGeometry.NavigatePane` | crates/forgetty-gtk/src/app.rs:4811-4923 | finds the nearest pane that lies beyond the focused one and faces it, the first in walk order among equals; none if there is none |
| `PaneGeometry.EligibleByDirection` | crates/forgetty-gtk/src/app.rs:4866-4913 | for each of the four directions, which panes are candidates and how far away they are |
| `PaneGeometry.TwoPanes` | crates/forgetty-gtk/src/app.rs:4846-4862 | where the two halves of a split and the handle between them lie, side by side and one above the other |
| `PaneGeometry.LeavesFit` | crates/forgetty-gtk/src/app.rs:4846-4862 | every pane of a laid-out tree lies inside the container and has some room |
| `PaneGeometry.FitsIffRoom` | crates/forgetty-gtk/src/app.rs:4846-4862 | a layout fits if and only if each of its panes has some room |
| `PaneGeometry.EligibleAreApart` | crates/forgetty-gtk/src/app.rs:4866-4913 | between two panes of which one lies beyond the other there is at least one handle |
| `PaneGeometry.SideIsCovered` | crates/forgetty-gtk/src/app.rs:4926-4928 | a stretch of one side of a layout meets a pane along that side, unless it lies within the end of one divider |
| `PaneGeometry.NavigationLandsOnNeighbour` | crates/forgetty-gtk/src/app.rs:4852-4922 | on the container's edge focus stays put; elsewhere the nearest pane is across exactly one handle and shares a stretch of border if and only if the pane does not lie wholly opposite the end of another divider |
| `PaneGeometry.WidePanesAreNotBlocked` | crates/forgetty-gtk/src/app.rs:4852-4922 | which no pane wider than a handle does |
| `PaneGeometry.ThinPaneIsBlocked` | crates/forgetty-gtk/src/app.rs:4852-4922 | two layouts with such a pane |
| `PaneGeometry.ThinPaneSkipsItsNeighbours` | crates/forgetty-gtk/src/app.rs:4866-4922 | two layouts of panes with room, from whose blocked pane focus jumps over a column in one and stays put in the other |
| `PaneGeometry.NavigateInLayout` | crates/forgetty-gtk/src/app.rs:4811-4923 | the search and the geometry together, for every pane |
| `SessionLayout.ReplaceLeafIsSubst` | crates/forgetty-session/src/manager.rs:1878-1903 | the early-exit tree walk replaces exactly the target leaf, and reports whether it was there |
| `SessionLayout.SubstAt` | crates/forgetty-session/src/manager.rs:1878-1903 | by position: the new tree stands where the leaf stood, subtrees without the leaf are as they were, and the splits around it keep direction and ratio |
| `SessionLayout.SubstLayoutAt` | crates/forgetty-session/src/manager.rs:898-972 | every tab without the leaf is untouched |
| `SessionLayout.SubstLayoutProper` | crates/forgetty-session/src/manager.rs:898-972 | no pane ends up at two leaves, and the leaves are the old ones and the new |
| `SessionLayout.SessionManager.CreateTabWithPaneId` | crates/forgetty-session/src/manager.rs:745-799 | appends a tab with one pane, or changes nothing |
| `SessionLayout.SessionManager.SplitPaneWithRatioAndPaneId` | crates/forgetty-session/src/manager.rs:898-972 | the leaf becomes a split of it and the new pane; fails, changing nothing, exactly if the pane is not live, the shell does not start or the leaf is missing |
| `SessionLayout.SessionManager.ClosePane` | crates/forgetty-session/src/manager.rs:1318-1392 | an unknown pane is ignored; a known one leaves the registry, the tab it alone made up is dropped, an emptied workspace that is not the only one gets one fresh tab if its shell starts, and nothing else changes; afterwards all leaves are live panes if and only if the pane was not part of a split |
| `SessionLayout.DropSoleLeaves` | crates/forgetty-session/src/manager.rs:1331-1348 | the tab dropped is the one the pane made up alone; nothing else leaves the tree |
| `SessionLayout.DropsOne` | crates/forgetty-session/src/manager.rs:1331-1348 | the other tabs keep their order |
| `SplitRestore.RestoreSubtree` | src/daemon.rs:764-817 | replaces the anchor's leaf by the saved tree, with exactly the subtrees collapsed whose shell failed and one warning for each, keeps recorded identifiers, gives unnamed leaves new ones, and touches no other leaf or pane; the tree comes back whole if and only if every shell starts; every live leaf is registered in the directory of the leftmost saved leaf at or below its position, or in the home directory if that is gone |
| `SplitRestore.SplitForSecond` | src/daemon.rs:779-804 | one split for the second half, on the recorded identifier of its first leaf, if it has one, and in that leaf's directory |
| `SplitRestore.Reassemble` | src/daemon.rs:806-810 | the replacements made by a split and by its two halves are together one replacement of the anchor |
| `SplitRestore.NoCollapseMeansSameShape` | src/daemon.rs:806-815 | shape, directions and ratios are the saved ones if and only if nothing stands collapsed |
| `SplitRestore.CollapsesAreFailures` | src/daemon.rs:800-815 | the collapses are as many as the shells that did not start |
| `SplitRestore.LeafKeepsItsName` | src/daemon.rs:711-716 | a live leaf has the identifier recorded at the leftmost saved leaf at or below its position, or a new one if none was recorded |
| `SplitRestore.LeafKeepsItsCwd` | src/daemon.rs:700-705 | a live leaf is registered in the directory of the leftmost saved leaf at or below its position, or in the home directory if that is gone |
| `SplitRestore.LeafBelow` | src/daemon.rs:764-817 | there is such a saved leaf for every live one |
| `SplitRestore.FirstHalvesFirst` | src/daemon.rs:805-809 | a split asks for its shell before its halves do, and the first half before the second |
| `SplitRestore.SaveAfterRestore` | crates/forgetty-session/src/manager.rs:1982-2001 | saving a tree restored without failures gives back the saved tree |
| `SplitRestore.RefreshChangesNothingIff` | crates/forgetty-session/src/manager.rs:1966-1974 | the refresh of directories before a save changes what is saved if and only if a shell has left its directory |
| `SplitRestore.SnapshotNamesEveryLeaf` | crates/forgetty-session/src/manager.rs:1982-2001 | what is saved names every leaf, live or not, and distinct leaves stay distinct |
| `SplitRestore.LookupFindsFirstHit` | src/daemon.rs:732-756 | the lookup answers with the live leaf standing where the first saved leaf with the target stands, and with none if and only if there is no such position |
| `SplitRestore.LookupNeverAnotherPane` | src/daemon.rs:732-756 | on a restored tree, whatever splits failed, the answer is the target or none |
| `SplitRestore.LookupFindsSaved` | src/daemon.rs:728-731 | with equal shapes there is an answer if and only if the target was saved |
| `SplitRestore.CollapseHidesItsAnchor` | src/daemon.rs:752-754 | a live pane that the lookup does not find |
| `SplitRestore.RestoreTabs` | src/daemon.rs:275-316 | the live tabs are exactly the saved ones whose first shell started, in order, each rebuilt from its own tree with exactly the subtrees collapsed whose shell failed; one warning for each failure, which are the lost tabs and the collapses; the new panes are saved ones or new, each in the directory of the leftmost saved leaf at or below its position or at home, and no other tab or pane changes |
| `SplitRestore.KeptIffStarted` | src/daemon.rs:286-316 | a saved tab is among the live ones if and only if its first shell started |
| `SplitRestore.NoWarningMeansWhole` | src/daemon.rs:275-316 | there is no warning if and only if every shell started, and then live tab m is saved tab m, whole |
| `SplitRestore.CollectFocus` | src/daemon.rs:391-420 | the focus list pairs saved tab i with live tab i |
| `SplitRestore.FocusInOrder` | src/daemon.rs:391-420 | the targets come in the order of the tabs, each with the identifier of its live tab |
| `SplitRestore.FocusIsRightOnlyInStep` | src/daemon.rs:398-407 | the lookup for saved tab i on the tree rebuilt from tab j gives the saved pane if and only if i is j and every split above its leaf got its shell |
| `SplitRestore.LookupIffReached` | src/daemon.rs:732-756 | the lookup answers if and only if every split above the leaf got its shell |
| `SplitRestore.FocusRightIff` | src/daemon.rs:391-420 | after the tabs are restored the pane found for saved tab i is the saved one if and only if the first shells of tabs 0 to i have started and every split above its leaf got its shell |
| `SplitRestore.LostTabShiftsFocus` | src/daemon.rs:398-410 | a lost tab makes another tab's pane the focus target |
| `ColdStart.RestoreWorkspaces` | src/daemon.rs:274-342 | the loop over all workspaces: each gets the tabs that its own shells made of it, one saved without tabs a new pane at home; every restored leaf is in the directory of the leftmost saved leaf at or below its position, or at home; the shells are used up in order, one warning for each that fails, and nothing else changes |
| `ColdStart.EmptyIffNoneStarted` | src/daemon.rs:318-342 | a workspace ends up without tabs if and only if all its saved tabs lost their first shell, or it was saved without tabs and the new pane's shell fails |
| `ColdStart.NoWarningNothingLost` | src/daemon.rs:274-342 | there is no warning if and only if every shell started, and then tab m of workspace v is saved tab m of workspace v, whole |
| `ColdStart.ColdStartRoundTrip` | crates/forgetty-session/src/manager.rs:1715-1735 | if every leaf has an identifier and its directory is still there, a start without warnings followed by a save writes each tab's tree as it was read if and only if no shell of the tab has left its directory |
| `OutputStream.ByteLog.Append` | crates/forgetty-session/src/byte_log.rs:171-191 | the ring afterwards is the last bytes of everything appended, at most its capacity |
| `OutputStream.OutputManager.ProcessPaneBytes` | crates/forgetty-session/src/manager.rs:1463-1497 | appends to the pane's log and sends the event in one step; for a closed pane it does neither |
| `OutputStream.OutputManager.SubscribeWithSnapshot` | crates/forgetty-session/src/manager.rs:1671-1683 | a receiver at the end of the channel and the ring of the same moment |
| `OutputStream.Subscription.SendSentinelAndReplay` | src/iroh_terminal.rs:230-245 | sends the sentinel and the replay in chunks, or the part of them that fits before the connection fails |
| `OutputStream.Subscription.OnEvent` | src/iroh_terminal.rs:484-521 | one event further: the pane's output is passed on, its closing reported before the stream ends, anything else passed over; or, behind, on to the oldest event held with a sentinel and the ring, or the part of them that fits |
| `OutputStream.Subscription.OnClientMsg` | src/iroh_terminal.rs:451-482 | unsubscribing or closing ends the stream with nothing more sent; a scrollback request is answered by one page, or ends the stream if that cannot be sent; all others change nothing |
| `StreamDelivery.StepKeeps` | src/iroh_terminal.rs:448-524 | the stream invariant over each output, delivery, lag, close and request |
| `StreamDelivery.RunKeeps` | src/iroh_terminal.rs:448-524 | and over every interleaving of them |
| `StreamDelivery.ExactlyOnceBeforeLag` | src/iroh_terminal.rs:428-436 | before the first lag the client has the ring at subscription and every later byte of the pane up to its place, once and in order |
| `StreamDelivery.NoGapAfterLag` | src/iroh_terminal.rs:504-515 | however often it lagged, what it received since the last sentinel is bytes of the history; if the pane was open at that sentinel, they cover every byte from the ring's start then to its place, and if it was closed, exactly the backlog |
| `StreamDelivery.LagOverlap` | src/iroh_terminal.rs:506-511 | after a lag as many bytes arrive twice as the shorter of replay and backlog has: none if and only if one of them is empty |
| `StreamDelivery.TwiceIsOverlap` | src/iroh_terminal.rs:504-515 | the bytes received twice are exactly those that both the replay and the events since the receiver's place account for |
| `StreamDelivery.CaughtUpHasRingIff` | src/iroh_terminal.rs:484-515 | in every reachable state a client that is caught up has the last bytes up to the ring's capacity if and only if the pane was open at the last sentinel or the backlog held then reaches back that far |
| `StreamDelivery.EndedStaysEnded` | src/iroh_terminal.rs:495-503 | nothing follows the end of a stream, hence nothing follows `PaneGone` |
| `StreamDelivery.SubscriptionStarts` | src/iroh_terminal.rs:428-436 | a client that subscribes is sent one sentinel and then the last bytes of the pane up to the ring's capacity, as far as its connection has room, and goes on with the next event |
| `StreamDelivery.NothingAfterUnsubscribe` | src/iroh_terminal.rs:453-460 | after the client has unsubscribed or closed its side no later run sends it a message |
| `StreamDelivery.OnlyScrollbackIsAnswered` | src/iroh_terminal.rs:461-481 | a scrollback request adds exactly one page while the connection has room and ends the stream when it has none; input, a second subscription and a listing add nothing and leave the stream alive |
| `StreamDelivery.OnlyClosedPaneIsMute` | crates/forgetty-session/src/manager.rs:1463-1497 | every event is broadcast but those of a closed pane, and the client is sent nothing before it reads it |
| `StreamDelivery.OneEventTaken` | src/iroh_terminal.rs:484-521 | what a client that is not behind is sent for one event, and when its stream ends |
| `StreamDelivery.LagStartsOver` | src/iroh_terminal.rs:504-515 | a client that is behind goes on at the oldest event held and is sent one sentinel and then the last bytes of the pane up to the ring's capacity, in frames of one mebibyte but for the last, as far as its connection has room |
| `StreamDelivery.GoneHasRingIff` | src/iroh_terminal.rs:495-503 | a client told that the pane is gone has its whole output since the receiver's place at the last sentinel, and the last bytes up to the ring's capacity if and only if the pane was open then or that place is far enough back |
| `StreamDelivery.LagAfterClose` | src/iroh_terminal.rs:504-515 | a lag handled after the close leaves the client with nothing |
| `StreamDelivery.GoneWithNothing` | src/iroh_terminal.rs:495-515 | a run in which the client is told that the pane is gone and has no byte of it |
| `StreamDelivery.SkippedCloseIsSilent` | src/iroh_terminal.rs:495-515 | a client whose place is past the closing event is never told |
| `StreamDelivery.ToldUnlessSkipped` | src/iroh_terminal.rs:495-515 | in every reachable state after the close, a client that keeps up is told if and only if its place is not past the closing event; past it, never |
| `Framing.BeBytesRoundTrip` | src/iroh_terminal.rs:155-173 | a length survives its four big-endian bytes |
| `Framing.BytesInOrder` | src/iroh_terminal.rs:155-164 | the most significant byte of the length comes first, and the length before the payload |
| `Framing.LengthIsCast` | src/iroh_terminal.rs:155-164 | the payload is sent whole, and its length modulo two to the 32 before it |
| `Framing.SubscribeOutputInner` | crates/forgetty-gtk/src/daemon_client.rs:1096-1134 | the reader loop computes the reading of the bytes |
| `Framing.ReadBehind` | crates/forgetty-gtk/src/daemon_client.rs:1096-1134 | what the reader makes of a stream from a place on does not depend on the bytes before it |
| `Framing.ReadBackStream` | crates/forgetty-gtk/src/daemon_client.rs:1096-1134 | of any frames the reader passes on the non-empty payloads up to the first over 4 MiB, and stops over that one |
| `Framing.AllDeliveredIffWithinLimit` | crates/forgetty-gtk/src/daemon_client.rs:1061-1113 | all non-empty payloads arrive if and only if each keeps the limit |
| `Framing.TruncationReadsPrefix` | crates/forgetty-gtk/src/daemon_client.rs:1096-1129 | cutting the bytes anywhere only takes frames off the end |
| `Framing.ReplayThroughCodec` | src/iroh_terminal.rs:230-245 | a replay cut into chunks, framed and read back is the same bytes, each frame within bounds |
| `Bytes.ChunksJoin` | src/iroh_terminal.rs:238-243 | chunks concatenate to the whole |
| `Bytes.ChunksAreBounded` | src/iroh_terminal.rs:59-62 | no chunk is empty or over its size, and only the last may be shorter |
| `CodeBlocks.CandidateIffDrawn` | crates/forgetty-gtk/src/code_block.rs:131-222 | the scan accepts a rectangle if and only if it lies on the screen, is at least 5 by 3, has a corner at each corner and box-drawing characters on all four sides, no other top-right corner on its top side and no other pair of bottom corners on its sides |
| `CodeBlocks.CornerCharacters` | crates/forgetty-gtk/src/code_block.rs:64-121 | the eight characters that serve as each of the four corners |
| `CodeBlocks.SmallestBox` | crates/forgetty-gtk/src/code_block.rs:131-222 | the one block of a screen of three rows that shows the smallest box |
| `CodeBlocks.BoxOnItsHead` | crates/forgetty-gtk/src/code_block.rs:131-222 | none with its rows in reverse |
| `CodeBlocks.OneCandidatePerCorner` | crates/forgetty-gtk/src/code_block.rs:148-213 | a corner starts at most one rectangle |
| `CodeBlocks.WithinIffAllCells` | crates/forgetty-gtk/src/code_block.rs:227-233 | a rectangle counts as nested if and only if the other has all its cells |
| `CodeBlocks.FindCandidate` | crates/forgetty-gtk/src/code_block.rs:148-225 | finds the box that starts at a cell, and none if and only if no box is drawn there |
| `CodeBlocks.DetectBordered` | crates/forgetty-gtk/src/code_block.rs:146-239 | reports boxes in scan order, none inside another, and every box drawn on the screen is reported or inside a reported one |
| `CodeBlocks.DominantSpan` | crates/forgetty-gtk/src/code_block.rs:269-312 | finds the leftmost longest run of one non-default background of at least 10 cells, none only if there is no such run |
| `CodeBlocks.OneDominant` | crates/forgetty-gtk/src/code_block.rs:269-312 | there is at most one |
| `CodeBlocks.GroupSpans` | crates/forgetty-gtk/src/code_block.rs:315-369 | reports, top to bottom, exactly the maximal runs of rows with one span that hit no bordered block |
| `CodeBlocks.TenCellsMakeABlock` | crates/forgetty-gtk/src/code_block.rs:283-312 | one stretch of colour on one row is a block if and only if it is at least ten cells wide |
| `CodeBlocks.OnlyBordersHit` | crates/forgetty-gtk/src/code_block.rs:357-368 | the overlap test can only fail on bordered blocks |
| `CodeBlocks.OverlapIffCommonCell` | crates/forgetty-gtk/src/code_block.rs:357-363 | two rectangles overlap if and only if they share a cell |
| `CodeBlocks.DetectCodeBlocks` | crates/forgetty-gtk/src/code_block.rs:141-369 | both together: every drawn box is reported or inside a reported one, coloured blocks are disjoint from each other and from boxes, and none is missed without overlapping a box |
| `SelectionCopy.ColumnsAreTheSelectedOnes` | crates/forgetty-gtk/src/app.rs:5254-5268 | the columns read in each mode are exactly those the selection contains |
| `SelectionCopy.SelectedCells` | crates/forgetty-gtk/src/app.rs:5254-5268 | whichever end was set first, a selection holds the cells from one end to the other in reading order, all of their rows, or the rectangle between them |
| `SelectionCopy.PickedByCharacter` | crates/forgetty-gtk/src/app.rs:5270-5274 | with one character in each cell the text is the selected stretch, character by character |
| `SelectionCopy.RowText` | crates/forgetty-gtk/src/app.rs:5254-5274 | a line is the selected cells of its row, left to right |
| `SelectionCopy.IsWrapped` | crates/forgetty-gtk/src/app.rs:5276-5301 | the terminal's flag, else for rows before the last the nearly-full test |
| `SelectionCopy.WrappedIffNearlyFull` | crates/forgetty-gtk/src/app.rs:5282-5301 | a row the terminal did not break counts as wrapped if and only if it is not the last, has more than ten cells, and one in the last fifth is not a space |
| `SelectionCopy.Terminal.ReadSelection` | crates/forgetty-gtk/src/app.rs:5221-5315 | the paged loop reads each selected row once, in order, and puts the viewport back |
| `SelectionCopy.CopyEndsIffRowsExist` | crates/forgetty-gtk/src/app.rs:5230-5308 | the loop ends if and only if the last selected row exists |
| `SelectionCopy.Terminal.CopySelection` | crates/forgetty-gtk/src/app.rs:5217-5341 | the text is the join of the rows read directly |
| `SelectionCopy.Join` | crates/forgetty-gtk/src/app.rs:5317-5341 | the join loop computes the joined text |
| `SelectionCopy.PieceExactly` | crates/forgetty-gtk/src/app.rs:5322-5335 | a continuation loses its indentation, a wrapped row its padding but for one space, and any other row is copied as it is |
| `SelectionCopy.BlankPieceExactly` | crates/forgetty-gtk/src/app.rs:5322-5335 | the same for a row of nothing but white space |
| `SelectionCopy.TwoRows` | crates/forgetty-gtk/src/app.rs:5322-5339 | two rows are joined by a newline if the first is not wrapped, and no newline follows the last |
| `SelectionCopy.WhiteSpaceCharacters` | crates/forgetty-gtk/src/app.rs:5325-5331 | the characters that are trimmed |
| `SelectionCopy.OneNewlinePerHardBreak` | crates/forgetty-gtk/src/app.rs:5317-5341 | the text is its lines joined by newlines, one for each row that is neither wrapped nor the last, none inside a line |
| `SelectionCopy.JoinKeepsInk` | crates/forgetty-gtk/src/app.rs:5325-5335 | trimming and joining keep every other character, once and in order |
| `OscScanner.OneReading` | crates/forgetty-gtk/src/osc_notification.rs:49-89 | all output has exactly one reading as commands from left to right, and the scan's is that |
| `OscScanner.Scan` | crates/forgetty-gtk/src/osc_notification.rs:45-93 | the nested loops find the first command whose body is accepted |
| `OscScanner.ScanOscNotification` | crates/forgetty-gtk/src/osc_notification.rs:45-93 | that, with the body parser for notifications |
| `OscScanner.CommandComesFirst` | crates/forgetty-gtk/src/osc_notification.rs:49-89 | a command sent after text without ESC ] is read first, with its body, and the scan goes on behind it |
| `OscScanner.Osc9RoundTrip` | crates/forgetty-gtk/src/osc_notification.rs:134-150 | a text without terminator sent as OSC 9 is found as sent unless it is a progress report |
| `OscScanner.ProgressIsSkipped` | crates/forgetty-gtk/src/osc_notification.rs:135-141 | a progress report is passed over: what is found is what is found in the output behind it |
| `OscScanner.ProgressTexts` | crates/forgetty-gtk/src/osc_notification.rs:137-141 | a text is a progress report if and only if it is `4` or begins with `4;` |
| `OscScanner.NotificationKinds` | crates/forgetty-gtk/src/osc_notification.rs:100-154 | which bodies are notifications, and that all others are not |
| `OscScanner.InAscii` | crates/forgetty-gtk/src/osc_notification.rs:49-83 | how the three kinds are sent, byte by byte, ended by BEL or ST |
| `OscScanner.FirstBehind` | crates/forgetty-gtk/src/osc_notification.rs:84-89 | what the scan finds from a place on does not depend on what is before it |
| `OscScanner.Osc777RoundTrip` | crates/forgetty-gtk/src/osc_notification.rs:100-116 | a title without semicolon and any body sent as OSC 777 are found as sent |
| `OscScanner.TitleOnly` | crates/forgetty-gtk/src/osc_notification.rs:104-110 | without a second semicolon all is the title |
| `OscScanner.TextOnly` | crates/forgetty-gtk/src/osc_notification.rs:118-132 | without a further semicolon all is the text |
| `OscScanner.Osc99RoundTrip` | crates/forgetty-gtk/src/osc_notification.rs:118-132 | of an OSC 99 command the text after the last semicolon is found |
| `CivilDate.EpochToTimestamp` | crates/forgetty-gtk/src/app.rs:6163-6214 | a valid date and time that the formula of section 4.16 of the POSIX.1-2017 Base Definitions takes back to the input |
| `CivilDate.YearLength` | crates/forgetty-gtk/src/app.rs:6168-6192 | that formula and the leap-year rule of the loop agree for every year |
| `CivilDate.Calendar` | crates/forgetty-gtk/src/app.rs:6169-6181 | the lengths of the months, and which Februaries have 29 days |
| `CivilDate.KnownTimes` | crates/forgetty-gtk/src/app.rs:6159-6214 | the seconds of five dates on both sides of the exceptions to the four-year rule |
| `CivilDate.MoreMeansLater` | crates/forgetty-gtk/src/app.rs:6183-6213 | later inputs and lexicographically later dates are the same, and each second has one date |
| `CivilDate.NamesAreUnique` | crates/forgetty-gtk/src/app.rs:6159-6213 | two seconds share a file name only if they are the same second |
| `CivilDate.FieldsOfName` | crates/forgetty-gtk/src/app.rs:6213 | read from the right a name is two digits each for second, minute and hour, a hyphen, two each for day and month, and the year |
| `SaveProtocol.StepLosesOrKeeps` | src/daemon.rs:510-588 | after any step either the file holds every announced change or a save is pending, if and only if the step is not a stale periodic write or a failed debounce write with nothing else pending |
| `SaveProtocol.CoveredUnlessLosing` | src/daemon.rs:510-588 | the same along every run |
| `SaveProtocol.UndisturbedRunKeeps` | src/daemon.rs:567-588 | it holds along every run in which no event falls between a periodic snapshot and its write and debounce writes succeed |
| `SaveProtocol.StartedRunKeeps` | src/daemon.rs:510-588 | so a daemon that has just started keeps it, whatever else happens in between |
| `SaveProtocol.SlowPeriodicWriteLoses` | src/daemon.rs:578-588 | a run in which a slow periodic write loses a change |
| `SaveProtocol.PeriodicSaveRepairs` | src/daemon.rs:575-588 | an undisturbed periodic save makes the file the layout, silent changes included |
| `SaveProtocol.WatcherSaves` | src/daemon.rs:526-550 | the watcher's write puts the layout of its snapshot into the file, a failed one leaves the file, and either way the flag goes up |
| `SaveProtocol.AnnouncedChangeIsWritten` | src/daemon.rs:526-550 | a change that comes with an event reaches the file by way of the watcher alone |
| `SaveProtocol.LagOnlyMarks` | src/daemon.rs:551-555 | a watcher that has missed events only raises the flag |
| `SaveProtocol.DebounceSaves` | src/daemon.rs:562-573 | the debounce task writes the layout of its snapshot once if the flag is up, and takes the flag down even if the write fails |
| `SaveProtocol.OneSaveAtATime` | src/daemon.rs:526-588 | a task that is saving takes up nothing else, and the watcher receives only events that are there |
| `SaveProtocol.Settles` | src/daemon.rs:526-573 | after the last event the watcher and the debounce task, in any order, stop after a bounded number of steps, and then the file holds every announced change |
| `SaveProtocol.WorkIsProgress` | src/daemon.rs:526-573 | the steps counted there are all those of the watcher and the debounce task that change anything, but for failing debounce writes and lags of no events |
| `SaveProtocol.OneDebounceCycle` | src/daemon.rs:562-573 | one debounce cycle with the flag up makes the file the layout |

## Left out

- Concurrency inside GTK: `RefCell` borrow failures, which make an operation return early.
- Pane geometry in fractions of pixels, the search bar and scrollbar beside a terminal, and styles that hide the divider: panes are whole rectangles of whole pixels.
- The idle callback that centres a new divider, and `focus_when_mapped`.
- The `before` flag is not part of the split RPC, so the daemon's tree is not claimed to equal GTK's for splits to the left and up.
- `delete_current_workspace` (crates/forgetty-gtk/src/app.rs:8257-8296), which closes panes without the delete RPC.
- Several own actions while another client's event or that of a lost reply is still unread, beyond the one of `MoveOverUnreadMoves`.
- What the program does once GTK's list is empty: it indexes the list and stops; the model's runs go on.
- A creation whose workspace was made and whose first tab failed, and a failing `set_active_workspace` call.
- Names, colours and tabs inside the replicated workspaces; the closing of windows and tab pages.
- WorkspaceReplica.Daemon.DuplicateWorkspace: the copied tabs and panes are not modelled, and the three phases are one step: neither shells that fail to start for the copy nor a list that shrinks between the phases.
- Setting the active pane, tab and workspace at cold start; shells that exit while the restore runs.
- Ratios are carried, not computed with.
- The byte log's disk appender and rotation; its file contents at start are a parameter.
- The server's reader of client frames, MessagePack and JSON; sockets and QUIC, whose failure is a bound on the messages that get through.
- Extracting a code block's content, and the clean-up applied to copied text.
- SelectionCopy.Terminal.ReadSelection: requires that the last selected row exists, because the program's loop does not end otherwise (`CopyEndsIffRowsExist`).
- PaneGeometry.NavigationLandsOnNeighbour: panes are taken to have some width and some height.
- The viewport and the screen are taken to have the same number of rows.
- Characters are Unicode scalar values; cell contents and copied text are not normalised, and notification texts stay bytes (no lossy decoding).
- A command split over two chunks of output: the scan sees one chunk.
- Changes made between the daemon's first save and the moment its watcher subscribes; the final save at shutdown.
- Timers of the save tasks: any order and any delay is allowed.
- Configuration, themes, clipboard filters, pairing.
