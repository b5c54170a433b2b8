# The native client's state models, verified

The native client of rustling-tulip keeps plain state between an asynchronous
daemon and the screen. This project models that state in Dafny and proves what
every run of it keeps.

| file | what it models |
|---|---|
| `AccountsFold.dfy` | one host's accounts as a fold of messages, refusals and sends, and the class holding every host |
| `AccountsHistory.dfy` | the stale-reply rule read off a host's history; the counters are proved to decide exactly that |
| `AccountsNotices.dfy` | the login run and the last refusal a host shows, read off its history; what a fold reports as changed |
| `AccountsView.dfy` | the view's sends: the re-ask after an overtaken write, one write at a time |
| `AccountsSystem.dfy` | client and daemon together: readings before the first poll, cache, announcements, a lagging connection, replies in any order, reconnects |
| `RotationOrder.dfy` | Up and Down in the rotation order |
| `Appearance.dfy` | overrides, changes, and the changes in flight over the stored value |
| `StoredForm.dfy` | overrides as they are stored: what is kept, what is refused, what a stored form is |
| `AppearanceProtocol.dfy` | the edit / store / answer protocol of one session |
| `AppearanceReconnect.dfy` | the same protocol over reconnects, with sends of an old connection stored late |
| `AppearanceView.dfy` | the editor's press on a session |
| `ActivityTrack.dfy`, `BarRuns.dfy` | busy time as a measure, and the bar's geometry |
| `AgentOptions.dfy` | spawn options, their wire form, the daemon's reading of it, and its replay |
| `HexColor.dfy`, `RecentColors.dfy` | trimming, `#rrggbb` text, the bounded recent list |
| `ChatCards.dfy`, `BranchFate.dfy` | card marks, the delete dialog's decision and focus |
| `AppearanceStops.dfy`, `FontList.dfy` | the editor's keyboard ring, and the rows and highlight of its font list |

`dafny verify dfyconfig.toml` checks all of it.

How the parts are modelled: an object whose methods update its fields is a class
whose `Valid()` holds after every method, with a ghost history where the claim is
about everything that ever happened to it. A protocol between two parties is a
step system; its results quantify over every legal list of steps. The accounts
system lets replies arrive in any order, more orders than one connection has. Times are
whole ticks, fractions exact reals, strings sequences of characters. Request ids
are fresh, as the client's UUIDs are meant to be.

Seven properties one might expect turn out false of the code. Each is stated with
a witness and the exact condition under which it holds:

- What a host shows can go back to an older snapshot for a while. A reply can
  overtake a broadcast (`BroadcastMayRegress`), a lagging connection gets the
  cached snapshot before older broadcasts it still buffers (`LagMayRegress`), and
  a write's reply can overtake a list reply read before the first poll
  (`ReplyMayRegress`). The view only moves forward, with what is in flight at any
  point still to arrive, if and only if no step puts a newer snapshot before an
  older broadcast on its way or an older reply still to land
  (`ViewGoesForwardIff`). A reply never takes the view
  back past a broadcast (`NoRegression`), and while the view is stale the
  repairing broadcast is already in flight (`StaleViewIsBeingRepaired`).
- The answer to an edit can change a field the user did not touch, in a session
  the daemon restored without putting its appearance in stored form
  (`RestoredMayShow`). Answering is invisible if and only if the first appearance
  is in stored form (`AnsweringIsInvisibleIff`); it is invisible up to stored form,
  and no send is refused, if and only if the daemon would store that appearance
  (`AnsweringIsInvisible`, `NeverRefusedIff`).
- After a reconnect, an edit the daemon received on the old connection can be stored
  late and revert what the user asked for since (`StrayIsReached`, `StrayReverts`).
  From a moment of rest on, answering is invisible again if and only if no such
  edit is left (`InvisibleAgainIff`); the mirror catches up with the daemon in every
  case (`MirrorCatchesUp`).
- Replaying a stored spawn may send less than the spawn did (`ReplayMayShrink`);
  it sends the same exactly when no rule trips (`ReplayIsExactIff`).
- The daemon may run a field the dialog hides (`DaemonMayShowMore`); it runs
  exactly what is shown if and only if every field hides alike
  (`DaemonRunsWhatIsShownIff`).
- The working share of the bar can exceed the busy share of the window
  (`OverlapCountsTwice`); the two are equal exactly when no two stretches of work
  overlap (`ShareIsBusyShareIff`). A daemon's own tracks end each stretch
  where the next status line begins (crates/daemon/src/dashboard/tracks.rs:91-131),
  so from log lines in order such segments come only over the wire.
- The Down key may never get to the last rows of the font list (`TwinStopsDown`):
  the system list leaves out bundled names by exact comparison
  (apps/native/src/fonts.rs:643-657), while the highlight ignores case. It reaches
  every row if and only if no two listed families differ in case alone
  (`DownReachesAllIff`).

## Model

| member | source | states |
|---|---|---|
| `AccountsFold.ReplyEffects` | apps/native/src/accounts.rs:297-341 | a reply can only free slots, and it replaces what is shown only for an ask no broadcast overtook |
| `AccountsFold.QuietEffects` | apps/native/src/accounts.rs:249-294 | login events, refusals and a forgotten login never change the snapshot or the count |
| `AccountsFold.HostsAreIndependent` | apps/native/src/accounts.rs:148-159 | in any interleaving, each host's state is the fold of its own events alone |
| `AccountsFold.AccountsState.Fold` | apps/native/src/accounts.rs:206-244 | the message joins the history, the state stays the fold of the history, and the result says what changed |
| `AccountsFold.AccountsState.Reply` | apps/native/src/accounts.rs:297-341 | list slot first, then write slot; an overtaken write asks for the list again |
| `AccountsFold.AccountsState.LoginEvent` | apps/native/src/accounts.rs:249-294 | the answer to the pending write ends it; a start or an end moves the login shown |
| `AccountsFold.AccountsState.Refuse` | apps/native/src/accounts.rs:346-367 | ends the ask it answers, write first, keeps its text, and says whether it answered one |
| `AccountsFold.AccountsState.RecordList` | apps/native/src/accounts.rs:371-377 | the newest list ask takes the slot, stamped with the count |
| `AccountsFold.AccountsState.RecordWrite` | apps/native/src/accounts.rs:381-391 | the write takes its slot, stamped with the count, and the last refusal goes |
| `AccountsFold.AccountsState.ClearLogin` | apps/native/src/accounts.rs:435-439 | only the login shown goes |
| `AccountsHistory.TrackList` | apps/native/src/accounts.rs:77-138 | the list slot and its stamp hold exactly the history's newest unanswered list ask since the last Welcome, and whether a broadcast came since |
| `AccountsHistory.TrackWrite` | apps/native/src/accounts.rs:77-138 | the same for the write slot, ended also by the login event that answers it |
| `AccountsHistory.ReplyLandsIff` | apps/native/src/accounts.rs:297-341 | the fold takes a reply if and only if its ask is the newest pending one of its kind and no broadcast arrived in between |
| `AccountsHistory.ShowsLastLanding` | apps/native/src/accounts.rs:206-229 | after any history with fresh ids a host shows exactly the last payload that landed since its Welcome, or nothing |
| `AccountsHistory.HostShowsLastLanding` | apps/native/src/accounts.rs:206-229 | the same for each host among all hosts, the case in which nothing landed included |
| `AccountsHistory.WriteSlotStep` | apps/native/src/accounts.rs:249-268 | a pending write ends only under its own id or by a Welcome, and under those it does end |
| `AccountsHistory.ListSlotStep` | apps/native/src/accounts.rs:297-367 | a pending list ask ends exactly by its reply, its refusal or a Welcome |
| `AccountsHistory.WritesAreSerial` | apps/native/src/accounts_view.rs:226-241 | between two writes of one connection the first was answered under its own id |
| `AccountsNotices.HeldIff` | apps/native/src/accounts.rs:206-224 | the client holds a host exactly when a broadcast or a send of its own came since the last Welcome |
| `AccountsNotices.ShowsLastLogin` | apps/native/src/accounts.rs:249-294 | in every history the login shown is the last end heard while the host was held, with its state and message, or else the first start since, with its session; a Welcome or the user forgets it; nothing if neither stands |
| `AccountsNotices.ShowsLastRefusal` | apps/native/src/accounts.rs:346-367 | in every history the error shown is the text of the last refusal that answered a pending ask, until a Welcome, a new write or a reply that lands |
| `AccountsNotices.RefusalFrees` | apps/native/src/accounts.rs:346-367 | a refusal frees the slot that waits for it, the write's before the list's, and nothing else |
| `AccountsNotices.UnchangedIsUnchanged` | apps/native/src/accounts.rs:140-146 | a fold that reports no change leaves the accounts, the login, the error and the pending write as they were |
| `AccountsNotices.ChangedIff` | apps/native/src/accounts.rs:206-341 | exactly which messages a fold reports as a change, and exactly when it asks for the list again |
| `AccountsView.RootView.OnAccountsMessage` | apps/native/src/accounts_view.rs:38-55 | after a write's reply its snapshot is shown, or a list ask stamped with the current count is pending and sent |
| `AccountsView.RootView.AskAccounts` | apps/native/src/accounts_view.rs:66-75 | the ask recorded is the ask sent |
| `AccountsView.RootView.OnAccountsRefused` | apps/native/src/accounts_view.rs:80-93 | a refusal answers exactly the two pending asks and never changes the snapshot |
| `AccountsView.RootView.SendAccountWrite` | apps/native/src/accounts_view.rs:226-241 | sends exactly when no write is pending, so no run ever has two |
| `AccountsSystem.NoRegression` | apps/native/src/accounts.rs:206-341 | in every run a reply that lands is at least as new as every broadcast heard before it on that connection |
| `AccountsSystem.QuietClientIsCurrent` | apps/native/src/accounts.rs:9-14 | with nothing in flight and the driver idle, a client any payload reached shows the daemon's current snapshot |
| `AccountsSystem.StaleViewIsBeingRepaired` | crates/daemon/src/accounts/driver.rs:137-144 | while what is shown is not current, a broadcast of the current snapshot is in flight, last |
| `AccountsSystem.ShownIsCached` | apps/native/src/accounts.rs:394-401 | what is shown is a snapshot the daemon cached, or read from the store before its first poll, or nothing |
| `AccountsSystem.InFlightCanBeHeard` | crates/daemon/src/server/connection.rs:880-899 | no step of the system blocks a delivery, a lagging connection included |
| `AccountsSystem.OrderIsKeptIff` | apps/native/src/accounts.rs:206-224 | while nothing in flight is older than what is shown or precedes it, a step keeps that if and only if it neither lands a reply newer than the next broadcast nor puts a lag's snapshot before an older one |
| `AccountsSystem.DrainsForwardIff` | apps/native/src/accounts.rs:215-224 | hearing every broadcast in flight never shows an older snapshot if and only if they are in that order |
| `AccountsSystem.ReplyOrderIsKeptIff` | apps/native/src/accounts.rs:297-341 | while no reply that would land is older than what is shown, a step keeps that if and only if it lands no reply before an older one that would land |
| `AccountsSystem.HearsForwardIff` | apps/native/src/accounts.rs:297-341 | no reply in flight, heard now, shows an older snapshot if and only if the replies that would land are in that order |
| `AccountsSystem.ViewGoesForwardIff` | apps/native/src/accounts.rs:206-341 | in every run from a daemon's start no step shows an older snapshot, nor would hearing the broadcasts or any reply in flight at any point, if and only if no step overtakes an older broadcast on its way or an older reply still to land |
| `AccountsSystem.BroadcastMayRegress` | apps/native/src/accounts.rs:215-224 | a run in which a broadcast that a reply overtook puts an older snapshot back |
| `AccountsSystem.LagMayRegress` | crates/daemon/src/server/connection.rs:880-899 | a run without a reply in which a lagging connection's buffered broadcast puts an older snapshot back |
| `AccountsSystem.ReplyMayRegress` | apps/native/src/accounts.rs:297-341 | a run with no broadcast heard in which a list reply, read before the first poll, lands after the newer reply of a write asked for earlier |
| `AccountsSystem.RunKeepsInv` | apps/native/src/accounts.rs:371-391 | every step keeps: an ask whose stamp still stands was sent after every broadcast heard |
| `RotationOrder.MovedOrder` | apps/native/src/accounts.rs:919-929 | the swap in the local vector is the move on the numbers: the account and its neighbour exchange places and every other stays |
| `RotationOrder.MoveIsPermutation` | apps/native/src/accounts.rs:919-929 | a move permutes; it is refused exactly off the list and at the end it heads for |
| `RotationOrder.OppositeMoveUndoes` | apps/native/src/accounts.rs:919-929 | Up then Down, or Down then Up, restores the order |
| `RotationOrder.EveryOrderIsReachable` | apps/native/src/accounts.rs:919-929 | any permutation of distinct numbers is reached by some list of moves |
| `Appearance.CopiedField` | apps/native/src/appearance.rs:267-286 | copying a field changes that field and no other |
| `Appearance.ApplyTo` | apps/native/src/appearance.rs:405-411 | each listed field takes the change's value, every other keeps the base's |
| `Appearance.ChangesNothingIffApplyingDoes` | apps/native/src/appearance.rs:415-419 | the check before a send holds exactly when applying gives the base back, for every change |
| `Appearance.OverlayIsLastWriter` | apps/native/src/appearance.rs:436-447 | each field shows the last send in flight that sets it, else the stored value |
| `Appearance.OverlayIsIdempotent` | apps/native/src/appearance.rs:436-447 | laying the same sends twice changes nothing more |
| `Appearance.StoredShowsIffUnset` | apps/native/src/appearance.rs:436-447 | what the daemon stores in a field shows, whatever it is, if and only if no send in flight sets the field |
| `Appearance.RefusalTakesBack` | apps/native/src/appearance.rs:484-494 | a refusal takes back exactly the fields the refused send was showing, to what stood before it |
| `Appearance.InFlight.Overlaid` | apps/native/src/appearance.rs:436-447 | the fold over the session's own sends |
| `Appearance.InFlight.Push` | apps/native/src/appearance.rs:451-462 | the send joins the end of its session's list, no other changes |
| `Appearance.InFlight.Answered` | apps/native/src/appearance.rs:467-480 | drops the answered send and all before it, in its session alone, and says whether it was known |
| `Appearance.InFlight.Refused` | apps/native/src/appearance.rs:484-494 | drops that one send from one session that holds it; known exactly when some session does |
| `Appearance.InFlight.RetainSessions` | apps/native/src/appearance.rs:498-501 | keeps exactly the listed sessions' sends |
| `Appearance.InFlight.ClearHost` | apps/native/src/appearance.rs:505-507 | forgets one host's sends and keeps every other's |
| `StoredForm.IsNormalIff` | crates/protocol/src/lib.rs:544-587 | overrides are in stored form if and only if each colour is unset or `#` and six small hex digits, the family unset or trimmed and not empty, size, width and weight unset or in range |
| `StoredForm.StoringKeeps` | crates/protocol/src/lib.rs:544-587 | what is stored is in stored form and is what was set: the same colours, the family less the space around it, size, width and bold as they are, a weight that is allowed |
| `StoredForm.RefusedIff` | crates/protocol/src/lib.rs:554-587 | storing is refused if and only if a set colour is neither blank nor `#` and six hex digits, or a size or width is out of range |
| `StoredForm.NormalizedIsNormal` | crates/protocol/src/lib.rs:554-587 | the stored form is a fixed point |
| `StoredForm.NormalizedApplied` | apps/native/src/appearance.rs:405-411 | storing commutes with laying a change in stored form, so such a change over a stored form gives a stored form |
| `AppearanceProtocol.AnswerDrops` | apps/native/src/appearance.rs:467-480 | the answer to a send leaves exactly the sends after it |
| `AppearanceProtocol.StepKeeps` | crates/daemon/src/server/sessions.rs:823-887 | editing, storing, announcing, answering, and lagging with older answers still to follow the list, each keep the log invariant and move the last value only by the edit |
| `AppearanceProtocol.AnsweringIsInvisible` | apps/native/src/appearance.rs:422-480 | in every run from an appearance the daemon would store, answers skipped, lost or late included, the overlay is stored as what the user last asked for, and is exactly that from one in stored form; no send is refused; with every answer taken, client and daemon agree |
| `AppearanceProtocol.AnsweringIsInvisibleIff` | apps/native/src/appearance.rs:422-480 | the overlay is exactly what the user last asked for in every run if and only if the session began in stored form |
| `AppearanceProtocol.NeverRefusedIff` | crates/daemon/src/server/sessions.rs:823-857 | no send is refused in any run if and only if the daemon would store the session's first appearance |
| `AppearanceProtocol.RestoredMayShow` | crates/daemon/src/session.rs:1900-1906 | from a restored accent in capitals, the answer to a new font size changes the accent shown |
| `AppearanceReconnect.MirrorCatchesUp` | apps/native/src/appearance.rs:505-507 | in every run of connections, refusals and lost sends included, a client with no answer left to take mirrors the daemon |
| `AppearanceReconnect.ReconnectShowsDaemon` | apps/native/src/appearance.rs:505-507 | after a reconnect with no edit since, what is shown is what is mirrored, and the daemon's value once every answer is taken |
| `AppearanceReconnect.InvisibleAgainIff` | crates/daemon/src/server/sessions.rs:778-785 | at a moment of rest in any run of connections, answering is invisible from then on if and only if no send of an older connection is left to be handled |
| `AppearanceReconnect.StrayReverts` | crates/daemon/src/server/sessions.rs:823-857 | at rest with such a send left, an edit can be made and answered and still be reverted |
| `AppearanceReconnect.StrayIsReached` | apps/native/src/appearance.rs:505-507 | an edit, a reconnect and its session list lead to such a moment of rest |
| `AppearanceView.AppearanceEditor.ChangeSession` | apps/native/src/appearance_view.rs:687-717 | a change taken shows at once and what goes out is what shows; one that changes nothing sends nothing |
| `ActivityTrack.ClipKeepsInstants` | apps/native/src/activity_track.rs:84-88 | clipping keeps exactly the segment's instants inside the window |
| `ActivityTrack.StretchUnion` | apps/native/src/activity_track.rs:166-185 | spans in order with a gap between neighbours, covering exactly the busy instants |
| `ActivityTrack.SeparatedIsUnique` | apps/native/src/activity_track.rs:166-185 | such spans are determined by the instants they cover |
| `ActivityTrack.UnionIgnoresOrder` | apps/native/src/activity_track.rs:166-185 | reordering or repeating segments changes neither the instants nor the spans |
| `ActivityTrack.UnionMeasures` | apps/native/src/activity_track.rs:187-195 | the spans' lengths add up to the number of busy instants, at most the window |
| `ActivityTrack.StretchSpan` | apps/native/src/activity_track.rs:187-195 | busy time is the number of busy instants |
| `BarRuns.LastStretchIsLatest` | apps/native/src/activity_track.rs:200-202 | the stretch drawn as finished starts latest, the last of those that do |
| `BarRuns.BarRunsOf` | apps/native/src/activity_track.rs:199-219 | the segments' runs, rearranged left to right |
| `BarRuns.FractionIsLinear` | apps/native/src/activity_track.rs:91-99 | the fraction of an instant is its share of the window |
| `BarRuns.RunsAreOnBar` | apps/native/src/activity_track.rs:203-216 | every run has positive width inside the bar |
| `BarRuns.OneFinished` | apps/native/src/activity_track.rs:221-230 | at most one run shows as finished |
| `BarRuns.RunsDoNotOverlap` | apps/native/src/activity_track.rs:199-219 | the runs follow one another if and only if no two segments that draw a run overlap in the window, holds and dispatches aside |
| `BarRuns.WidthIgnoresOrder` | apps/native/src/activity_track.rs:217-218 | an unstable sort cannot change a kind's share of the bar |
| `BarRuns.ShareIsBusyShareIff` | apps/native/src/activity_track.rs:187-230 | an activity's width is never below its time over window length, and equals it if and only if no two of its stretches overlap in the window |
| `BarRuns.SharesByKind` | apps/native/src/activity_track.rs:199-230 | the same kind by kind: working runs against work, asking runs against asking, idle and finished runs together against idling |
| `BarRuns.FinishedIff` | apps/native/src/activity_track.rs:199-230 | a finished run is on the bar if and only if something is unseen and the stretch that starts latest, the last of those, is idle and shows in the window |
| `BarRuns.GapsAreDrawn` | apps/native/src/activity_track.rs:221-223 | a gap run is on the bar exactly for each gap that shows, over its stretch |
| `BarRuns.OverlapCountsTwice` | apps/native/src/activity_track.rs:187-219 | two overlapping stretches of work whose width exceeds the busy share |
| `AgentOptions.ReadIsStable` | apps/native/src/agent_options.rs:416-439 | a value read as other than the default reads as itself again |
| `AgentOptions.ReadIsExact` | apps/native/src/agent_options.rs:412-439 | a value the daemon takes reads as itself, a text on a text or model field less the space around it and blank as no value, and any other value as the default |
| `AgentOptions.SetIsSent` | apps/native/src/agent_options.rs:233-246 | a value set on a field is what a spawn sends for it if and only if the field is shown, not locked, and reads the value as other than its default; otherwise nothing is sent |
| `AgentOptions.DrawnIff` | apps/native/src/agent_options.rs:168-181 | the dialog draws a field if and only if it is placed in the dialog and no rule hides it |
| `AgentOptions.ReplayResolves` | apps/native/src/agent_options.rs:153-165 | after a replay a field holds what it sent, else its default |
| `AgentOptions.ReplayIsSubmap` | apps/native/src/agent_options.rs:233-246 | seeding with the wire values and sending again gives a part of them |
| `AgentOptions.ReplayIsExactIff` | apps/native/src/agent_options.rs:107-118 | it gives all of them if and only if no sent field has a rule waiting for the default of a hidden field's lost value |
| `AgentOptions.FlatRulesNeverTrip` | apps/native/src/agent_options.rs:443-447 | no rule trips where no field a hide rule reads can be hidden |
| `AgentOptions.ReplaySettles` | apps/native/src/agent_options.rs:233-246 | replaying is settled after as many rounds as there are fields |
| `AgentOptions.ReplayMayShrink` | apps/native/src/agent_options.rs:233-246 | a descriptor whose replay drops a field |
| `AgentOptions.FillPreservesMeaning` | apps/native/src/agent_options.rs:228-246 | filled with defaults, the wire form holds the resolved value of every shown field and the default of every hidden or locked one |
| `AgentOptions.DaemonFillsAsReplay` | crates/agents/api/src/lib.rs:1506-1521 | the daemon fills a spawn to exactly what a replay of it resolves |
| `AgentOptions.DaemonTakesIff` | crates/agents/api/src/lib.rs:1493-1521 | the daemon takes a spawn if and only if it takes the default of every field left out |
| `AgentOptions.DaemonHidesIff` | crates/agents/api/src/lib.rs:1522-1556 | the daemon hides a field exactly when a rule hits it on a kept value or on a lost field's default |
| `AgentOptions.DaemonRunsWhatIsShownIff` | crates/agents/api/src/lib.rs:1493-1532 | the daemon runs exactly the values shown if and only if every field hides alike |
| `AgentOptions.FlatRulesHideAlike` | apps/native/src/agent_options.rs:441-447 | with such flat rules every field hides alike |
| `AgentOptions.DaemonMayShowMore` | crates/agents/api/src/lib.rs:1522-1532 | a spawn whose hidden field the daemon runs on its default |
| `AgentOptions.TrustedShowsKept` | apps/native/src/agent_options.rs:371-392 | a drawn field shows its untrusted value, trusted or not, and that is what runs unless it is locked |
| `AgentOptions.Options.Seed` | apps/native/src/agent_options.rs:107-109 | after seeding, a spawn sends exactly what a replay of the stored values sends, a part of them where they were a spawn's; nothing that stood before is left |
| `AgentOptions.Options.Set` | apps/native/src/agent_options.rs:121-131 | the field set resolves to what it reads the value as, or its default while locked, and every other field resolves as before; an id the agent lacks changes nothing |
| `AgentOptions.Options.KeepField` | apps/native/src/agent_options.rs:135-144 | copies one field, absence included, and leaves the rest |
| `AgentOptions.Options.Spawn` | apps/native/src/agent_options.rs:233-246 | what a spawn sends, with its replay a part of it, and all of it exactly when no rule trips |
| `HexColor.TrimSplits` | apps/native/src/appearance.rs:675-676 | trimming takes space off both ends and nothing else |
| `HexColor.TrimTrims` | apps/native/src/appearance.rs:675-676 | trimming is idempotent and leaves a trimmed text alone |
| `HexColor.HexRoundTrip` | apps/native/src/appearance.rs:675-687 | parsing a printed colour gives it back modulo 2^24 |
| `HexColor.ParseThenHex` | apps/native/src/appearance.rs:675-687 | a parsed colour prints as its own digits in lower case |
| `HexColor.HexInputAccepts` | apps/native/src/appearance.rs:693-697 | a typed text is taken if and only if it is six hex digits, `#` or not |
| `HexColor.HexInputIsCanonical` | apps/native/src/appearance.rs:693-697 | what is stored is a fixed point that parses to the colour typed |
| `HexColor.HexInputSeparates` | apps/native/src/appearance.rs:693-697 | two texts store the same exactly when they name the same colour |
| `RecentColors.NewestFirstIsByLastPush` | apps/native/src/appearance.rs:757-769 | the reference list: every pushed colour once, by its last push, newest first |
| `RecentColors.CutThenPush` | apps/native/src/appearance.rs:765-767 | cutting the list before a push loses nothing the next cut would keep |
| `RecentColors.RecentList.Push` | apps/native/src/appearance.rs:760-769 | after any pushes from empty the list is the first twelve of the reference list |
| `RecentColors.RecentList.Swatches` | apps/native/src/appearance.rs:774-783 | reads back exactly the colours kept |
| `RecentColors.RecentSwatches` | apps/native/src/appearance.rs:774-783 | from any stored list, the readable entries once each, at most twelve |
| `RecentColors.ReadableIsDistinct` | apps/native/src/appearance.rs:774-783 | each colour some entry reads as is offered once, in the order of first entries, and no other |
| `ChatCards.CardState.Clicked` | apps/native/src/chat_cards.rs:427-439 | an answer to the shown card makes it busy and clears its refusal; one to a card gone since is only remembered |
| `ChatCards.CardState.Remember` | apps/native/src/chat_cards.rs:441-454 | the queue is the last sixteen of all answers ever sent |
| `ChatCards.CardState.OnScreen` | apps/native/src/chat_cards.rs:467-484 | a card that left takes its busy mark and its refusal with it, and reads as answered elsewhere exactly when no answer of ours waited |
| `ChatCards.CardState.OnNewEntry` | apps/native/src/chat_cards.rs:487-489 | only the line about an answer elsewhere goes |
| `ChatCards.CardState.Refused` | apps/native/src/chat_cards.rs:501-517 | known exactly while among the last sixteen; frees the card exactly for the answer it waits for; a late one changes nothing |
| `BranchFate.LostCommitCount` | apps/native/src/branch_fate.rs:127-139 | unknown exactly when a member cannot be counted, else the true sum capped at the u32 maximum |
| `BranchFate.DeleteAllIff` | apps/native/src/branch_fate.rs:143-156 | one button deletes everything if and only if a branch landed and every other landed or is untouched |
| `BranchFate.ChooseIff` | apps/native/src/branch_fate.rs:118-149 | the dialog asks to keep or delete if and only if some branch is kept by default or unknown, with the count of commits a delete loses |
| `BranchFate.WorktreeOnlyIff` | apps/native/src/branch_fate.rs:143-156 | only the worktree is at stake if and only if every branch is untouched |
| `BranchFate.LostCommitsIff` | apps/native/src/branch_fate.rs:127-139 | the count is unknown if and only if some branch is unknown or uncounted, else the loss or 2^32 - 1 below it |
| `BranchFate.LossAdds` | apps/native/src/branch_fate.rs:127-139 | each branch kept by default adds its own commits to the loss, every other none |
| `BranchFate.FooterIff` | apps/native/src/branch_fate.rs:314-329 | keeping the branch is offered exactly when some branch is kept by default or unknown, deleting it exactly when some branch is not untouched |
| `BranchFate.SafeIff` | apps/native/src/branch_fate.rs:201-213 | the safe button is offered and deletes no branch; every other but Cancel is destructive |
| `BranchFate.DeleteWorktreeConfirm.Press` | apps/native/src/branch_fate.rs:201-213 | a press deletes branches only if the user moved the focus since the buttons last changed |
| `BranchFate.ChoiceIgnoresOrder` | apps/native/src/branch_fate.rs:121-156 | the decision and its count depend only on the multiset of fates |
| `BranchFate.MovesUndo` | apps/native/src/branch_fate.rs:355-368 | forward and backward moves undo each other on every footer |
| `BranchFate.DeleteWorktreeConfirm.OnPreview` | apps/native/src/branch_fate.rs:246-265 | the focused button stays offered, and a destructive one is focused only by the user's own move since the buttons changed |
| `BranchFate.DeleteWorktreeConfirm.Tick` | apps/native/src/branch_fate.rs:269-278 | falls back exactly past the deadline with no preview, and keeps the same focus safety |
| `BranchFate.DeleteWorktreeConfirm.MoveFocus` | apps/native/src/branch_fate.rs:355-368 | one place along the footer, wrapping, the button set unchanged |
| `AppearanceStops.Stops` | apps/native/src/appearance_stops.rs:200-255 | exactly the stops the level has that are on, in reading order, each once |
| `AppearanceStops.FullOrderHas` | apps/native/src/appearance_stops.rs:206-252 | the full order holds exactly the stops a level has: theme and interface font at the app level, colour rows below it, recents and Close as asked |
| `AppearanceStops.AlwaysOnIff` | apps/native/src/appearance_stops.rs:143-153 | the stops that can never be off |
| `AppearanceStops.TabEnters` | apps/native/src/appearance_stops.rs:260-274 | with the keyboard on no stop, Tab enters at the first and Shift-Tab at the last |
| `AppearanceStops.FullOrderAscends` | apps/native/src/appearance_stops.rs:206-252 | every level's full order follows the page from top to bottom |
| `AppearanceStops.TabsUndo` | apps/native/src/appearance_stops.rs:260-274 | Tab and Shift-Tab undo each other on any ring |
| `AppearanceStops.TabsVisitAll` | apps/native/src/appearance_stops.rs:260-274 | a ring's length of Tabs passes every stop exactly once and comes back |
| `AppearanceStops.AfterLostIsNext` | apps/native/src/appearance_stops.rs:279-288 | a lost stop passes the keyboard to the next surviving stop round the order, if any survives |
| `FontList.BuildEntries` | apps/native/src/appearance_stops.rs:355-394 | the pushed list is the reset row and each group with a match under its header |
| `FontList.EntriesHave` | apps/native/src/appearance_stops.rs:355-394 | the list holds exactly: reset, each bundled or installed family that matches, the level's own where neither list has it and it matches, and the headers of the groups with rows |
| `FontList.HighlightIsPickable` | apps/native/src/appearance_stops.rs:407-427 | the highlight stands on the first row that picks what it wants (itself, else the chosen family, else reset), and on the first row when none does |
| `FontList.StepLandsBeside` | apps/native/src/appearance_stops.rs:432-445 | a step picks the next pickable row down or up, past headers, and stays put at the ends |
| `FontList.RepeatIsNeverHighlighted` | apps/native/src/appearance_stops.rs:407-427 | a row that repeats an earlier one but for case is never highlighted |
| `FontList.DownReachesIff` | apps/native/src/appearance_stops.rs:432-445 | from the top, Down reaches a row if and only if no row up to it repeats an earlier one |
| `FontList.DownReachesAllIff` | apps/native/src/appearance_stops.rs:355-445 | Down reaches every pickable row if and only if no two bundled or installed families that match the filter differ in case alone |
| `FontList.TwinStopsDown` | apps/native/src/appearance_stops.rs:432-445 | a bundled family installed in another case keeps Down from the families after it, in a list sorted as the picker sorts it |

## Left out

- All drawing, focus handles, listeners and subscriptions: user interface over library types.
- Captions, toasts, clock and age texts, and time zones: string formatting.
- `f32` and `f64` rounding and NaN: fractions are exact reals, for a window of at least one hour.
- Overflow of the 64-bit update count and of tick arithmetic: unbounded integers.
- The dedupe of the all-exhausted toast, the threshold and hysteresis steppers, hold ticks and the gate caption, settings merges: small members that would add no harder property.
- A daemon without an account service, which answers an empty list and never broadcasts.
- A session the daemon no longer holds, whose sends it refuses, and several clients editing one session: the appearance protocol is one client's; `Appearance.RefusalTakesBack` and `Appearance.StoredShowsIffUnset` say what a refusal and a foreign edit then show.
- The repo, workspace and app levels of the appearance editor, and the resolution of a field through the levels.
- `PromptStack`: the card marks are proved for callers that pass the prompt truly shown.
- Repeated field ids in one agent descriptor: the option results assume distinct ids.
- Unicode case folding: the font list's filter is a parameter; its comparison of names folds ASCII case, as the source does.
- The sort routines: the spans' order is total, so any sort gives the modelled result; the bar's results hold for every rearrangement that sorts by start.
- AccountsFold.AccountsState.Fold: does not model `popover_host` or `exhausted_raised`, which no result here needs.
