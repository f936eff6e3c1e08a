# Verified models of OpenChanfix and the ircd it runs in

A Dafny 4.11 model of the stateful core of this IRC daemon, with proofs. `dafny verify dfyconfig.toml` checks
everything.

* **Score database** (`OpRecords`, `Notes`, `Channels`, `ChannelIndex`, `Elements`, `Database`, `DbModel`,
  `DbLaws`, `ScoreHistory`, `RecentScores`, `SaveFile`, `SaveDamage`). Channels are heap objects in 256 hashed,
  sub-indexed elements. Every operation is proved to refine an operation on a map keyed by folded channel name. On that
  map every run keeps channels in scoring order, keeps those with a flag or notes, and counts a plain dated history; a
  score differs from the registrations of the last fourteen days by an amount that is given. Saving and loading are
  inverse, and which damage to a file is noticed is known to the byte.
* **Fixing engine** (`FixTimes`, `FixSelection`, `FixThreshold`, `FixModes`, `FixReads`, `FixTrigger`, `FixLists`,
  `FixLaws`, `FixRuns`). Who gets ops and by which lines, in which runs of the database that is right, when a channel is
  picked up, and how often a fix may be attempted over any run.
* **Gathering** (`GatherPoints`, `Gather`, `GatherTable`). One point per user@host and channel in a whole round, every
  bucket once per round.
* **G-line votes** (`Gline`, `GlineRuns`, `GlineFresh`, `GlineLaws`). What must have happened before a G-line takes effect,
  over any run.
* **Containers** (`MergeOrder` and `SList` in `SList.dfy`, `DLink`, `Tokens`, `Argz`). Heap lists and byte vectors
  that agree with plain sequences.
* **Smaller cores** (`Modes`, `ModeLines`, `CommaList`, `AccountLists`, `Users`, `UserLaws`, `CapText`, `Cap`,
  `CapLaws`).

`CStrings` holds NUL-free byte strings and the two case foldings (that of `irccmp`, section 2.2 of RFC 1459, and
that of `strcasecmp`); `Sequences` one fact about lists that are worked off while entries are deleted.

What the code does differently from what one would expect, each stated as a lemma:

* Attempts choose the best clients if and only if the channel's records are in scoring order
  (`FixSelection.BestMeansInOrder`). Every channel that is not open for writing is in order in every run
  (`FixReads.ClosedChannelsServeBest`); one that is open need not be, and a run shows a qualified client passed over
  (`FixReads.OpenChannelMisses`).
* A rotation that skips days can leave old points in the ring. `RecentScores.ScoreBalance` gives the error of a score in
  every run whose rotations go forward, `RecentScores.ScoreExact` says when it is zero, and
  `RecentScores.SkippedDaysLeaveStalePoints` gives a run.
* A first G-line vote with a mask too long for its buffer is stored cut. Its vote then counts for the shorter mask
  (`GlineRuns.MajorityOnMask`, `GlineRuns.OverlongMaskLendsItsVote`), there can be two entries stored alike
  (`GlineRuns.RunUnique` gives the exact condition, `GlineRuns.OverlongMaskDoubles` a run), and a second placement can
  rest on two fresh votes (`GlineFresh.FreshExactly` gives the exact condition, `GlineRuns.OverlongMaskPlacesTwice` a
  run).
* A channel name is in the checksum of its file only with the first four of every eight bytes, and not with a shorter
  rest, so other damage to it goes unnoticed (`SaveDamage.NameDamage`).
* Asking for a reverse lookup stops the gathering of points (`Gather.NoneWithReverse`).
* A manual fix of a channel in which all clients have ops already, but fewer than wanted, is never done, while an
  automatic one is (`FixSelection.StageTwo`, `FixSelection.FixOpless`).
* A hostmask list may grow to 256 characters, one more than the scratch copies used to search it: then the last item is
  not found, and deleting another one cuts it (`AccountLists.MembershipExact`, `AccountLists.DeletedExactly`;
  `AccountLists.ThreeMasksFill` gives such a list).
* The array of nicks to be opped is handed on whole, so the MODE lines carry more mode letters than nicks when fewer
  clients qualify than are wanted (`FixModes.LettersForTheArray`).
* A database file cut inside the op records of its last channel is accepted, with blank records in place of those that
  are gone (`SaveFile.AcceptedIsSaved`, `SaveFile.CutIsAccepted`).
* A new account name is cut to nine characters after the check that it is free (`Users.NewNameUnique`, `Users.RunNames`).
* `argz_create_sep` adds an empty last entry for a trailing delimiter (`Argz.CreatedExactly`). `argz_stringify` runs out
  of bounds on a vector of fewer than two bytes, such as the one made from an empty string
  (`Argz.EmptyStringTooShort`), and never replaces the first byte (`Argz.StringifyJoins`).
* The tokenizer writes past its array of pointers from 255 tokens on (`CommaList.Tokenize`).

## Model

| member | source | states |
|---|---|---|
| CStrings.IrcCmp | src/match.c:192-206 | 0 exactly for names equal under the IRC folding, 1 for all others |
| CStrings.IrcFoldExact | src/match.c:264-301 | two names are equal under that folding exactly if they agree byte for byte but for case, the upper case letters being A to ^ |
| CStrings.AsciiFoldExact | chanfix/cf_tools.c:325-345 | user names and hosts are compared with the upper case letters A to Z only |
| OpRecords.ScoreOf | chanfix/cf_database.c:576-582 | the loop adds up all fourteen daily counters |
| OpRecords.StableSortArranges | chanfix/cf_database.c:767-816 | the insertion order is a descending permutation in which records of equal score keep their order |
| OpRecords.StableArrangementUnique | chanfix/cf_database.c:767-816 | there is only one such arrangement of a list |
| OpRecords.StableSortFixpoint | chanfix/cf_database.c:767-816 | closing a channel that is in order changes nothing |
| OpRecords.CutExact | chanfix/cf_database.c:296-315 | cutting at the first record without points equals filtering if and only if no scoring record follows |
| OpRecords.CutIsFilter | chanfix/cf_database.c:282-315 | and so always after the sort that comes first in the rollover |
| OpRecords.RegisteredWellFormed | chanfix/cf_database.c:396-447 | registration keeps user@hosts unique and at most 256, and adds exactly the given key, if there is room |
| OpRecords.RolledWellFormed | chanfix/cf_database.c:268-319 | after the rollover a list is in order and holds exactly the records that still score |
| Notes.PushedList | chanfix/cf_database.c:1383-1424 | adding a note puts it in front of the list of notes and drops the ninth |
| Notes.DeletedList | chanfix/cf_database.c:1426-1457 | deleting note n removes exactly the n-th of the list, and works exactly for existing numbers |
| Notes.HoldsNote | chanfix/cf_database.c:1426-1498 | the slot reached by counting non-empty slots holds the n-th note of the list |
| Notes.CompactList | chanfix/cf_database.c:930-960 | notes read back without holes are the same list |
| Channels.SortOps | chanfix/cf_database.c:767-816 | the in-place sort gives the stable arrangement of the records and leaves the rest of the array alone |
| Channels.Channel.constructor | chanfix/cf_database.c:186-204 | a new channel has room for eight ops and no records, notes or flags |
| Channels.Channel.WriteEnd | chanfix/cf_database.c:767-816 | closing a channel sorts its records and changes nothing else |
| Channels.Channel.RegisterOp | chanfix/cf_database.c:396-447 | one point for the user@host in the day's slot; the array doubles when full, up to 256 |
| Channels.Channel.ClearDay | chanfix/cf_database.c:274-280 | clears one slot of every record |
| Channels.Channel.CutNonScorers | chanfix/cf_database.c:296-319 | keeps exactly the records with a point |
| Channels.Channel.Shrink | chanfix/cf_database.c:344-362 | halves the array once if it is larger than eight and at most a third full, and keeps the records |
| Channels.Channel.AddNote | chanfix/cf_database.c:1383-1424 | the note, cut to its buffer, becomes the first of at most eight; returns their number |
| Channels.Channel.DelNote | chanfix/cf_database.c:1426-1457 | removes the n-th note, or reports that there is none |
| Channels.Channel.GetNote | chanfix/cf_database.c:1477-1498 | returns the n-th note of the list, or nothing |
| ChannelIndex.IndexedCounts | chanfix/cf_database.c:82-92 | the index invariant says: entry h is the number of channels with a smaller sub-hash, channels are grouped by sub-hash, folded names are unique |
| ChannelIndex.HashExact | chanfix/cf_database.c:82-92 | two names belong to one element exactly if their second bytes are alike but for case, and to one group of it if their third bytes are |
| ChannelIndex.InsertIndexed | chanfix/cf_database.c:136-204 | inserting at the sub-hash's entry and raising all later entries keeps the invariant and adds one map entry |
| ChannelIndex.RemoveIndexed | chanfix/cf_database.c:225-263 | removing a channel and lowering the later entries keeps the invariant and removes one map entry |
| ChannelIndex.UpdateIndexed | chanfix/cf_database.c:396-447 | changing a channel in place keeps the invariant and updates one map entry |
| ChannelIndex.SpotOfNew | chanfix/cf_database.c:150-168 | the insertion walk only leaves the start of its group for a name that exists already |
| ChannelIndex.RolloverAsMap | chanfix/cf_database.c:268-365 | the rollover of the array is the rollover of the map: survivors in order, each with its scoring ops |
| ChannelIndex.CleanupStep | chanfix/cf_database.c:290-342 | deleting while iterating visits every original channel exactly once |
| ChannelIndex.CutIsRolled | chanfix/cf_database.c:268-365 | clear, sort, cut and shrink together are the rollover of one channel |
| Elements.Element.constructor | chanfix/cf_database.c:95-116 | a fresh element is the empty map |
| Elements.Element.Locate | chanfix/cf_database.c:207-223 | starting at the sub-index finds a position exactly when the map has the name |
| Elements.Element.Find | chanfix/cf_database.c:207-223 | finds the channel exactly when the map has the name |
| Elements.Element.FindSpot | chanfix/cf_database.c:150-168 | the walk passes only entries of that name and stops at the end or at another name |
| Elements.Element.New | chanfix/cf_database.c:136-204 | adds a new channel to the map, shifting array and index in place, other channels kept |
| Elements.Element.Delete | chanfix/cf_database.c:225-263 | removes exactly the named channel, or reports that there is none |
| Elements.Element.CleanUp | chanfix/cf_database.c:290-362 | one turn of the cleanup: drops the channel exactly when it has no scoring op, flag or note, else cuts and shrinks it |
| Elements.Element.UpdateDay | chanfix/cf_database.c:268-365 | the element becomes its rollover |
| Database.InBucket | chanfix/cf_database.c:88-92 | a name is in the database map exactly when it is in the element it hashes to |
| Database.SplitRolled | chanfix/cf_database.c:367-381 | rolling over all 256 elements rolls over the map |
| Database.Table.Find | chanfix/cf_database.c:449-460 | finds a channel exactly when the map has the folded name |
| Database.Table.FindOrNew | chanfix/cf_database.c:462-482 | returns the channel, created if it was absent, all others kept |
| Database.Table.Close | chanfix/cf_database.c:767-816 | sorts one channel, all others kept |
| Database.Table.Register | chanfix/cf_database.c:396-447 | one registration on one channel, all others kept |
| Database.Table.UpdateDay | chanfix/cf_database.c:367-381 | the whole table becomes its rollover |
| Database.Store.constructor | chanfix/cf_database.c:732-765 | the empty database with no channel open |
| Database.Store.Reader | chanfix/cf_database.c:1281-1289 | reads go to the map's channel, if there is one |
| Database.Store.CloseWrite | chanfix/cf_database.c:767-816 | an open channel is sorted and closed |
| Database.Store.SetWriteChannel | chanfix/cf_database.c:1304-1322 | closes what was open, then opens or creates; names of 51 characters or more only close |
| Database.Store.RegisterOp | chanfix/cf_database.c:510-518 | counts a point on the open channel unless user or host is too long |
| Database.Store.AddNote | chanfix/cf_database.c:1383-1424 | adds a note to the open channel and returns how many it has now |
| Database.Store.DelNote | chanfix/cf_database.c:1426-1457 | deletes a note of the open channel, or reports that there is no such note |
| Database.Store.SetFlag | chanfix/cf_database.c:1500-1505 | sets the flag of the open channel |
| Database.Store.UpdateDay | chanfix/cf_database.c:367-381 | closes the open channel and rolls everything over to the new slot |
| DbModel.StepSane | chanfix/cf_database.c:1304-1322 | every operation keeps the database well formed and, but for the open channel, in scoring order |
| DbModel.RunInOrder | chanfix/cf_database.c:767-816 | in every run from the start all channels but the open one are in scoring order |
| DbLaws.RolloverExact | chanfix/cf_database.c:268-364 | on a new day a channel stays if and only if it has a flag, a note, or a record with points on another day; it keeps everything but the day's counters and the records that have no others, and a table a third full is halved |
| DbLaws.RolloverAddsNone | chanfix/cf_database.c:367-381 | a new day brings no channel back |
| DbLaws.EventExact | chanfix/cf_database.c:1383-1515 | every other event keeps every channel and changes only the flag, the notes or the records of the open one; a long note is cut, a ninth drops the oldest, a full table doubles |
| DbLaws.NewExact | chanfix/cf_database.c:1304-1335 | opening an unknown channel makes an empty one of that name with room for eight records |
| DbLaws.FlagStays | chanfix/cf_database.c:324-343 | a channel with a flag stays in the database, with that flag, through every run that does not set it again |
| DbLaws.FlagGiven | chanfix/cf_database.c:1500-1515 | so does the flag given to the open channel |
| DbLaws.NotesStay | chanfix/cf_database.c:324-343 | a channel with notes stays, with those notes, through every run that adds and deletes none on it |
| ScoreHistory.CounterRegistered | chanfix/cf_database.c:396-447 | a registration adds one, modulo 65536, to exactly one counter |
| ScoreHistory.CounterRolled | chanfix/cf_database.c:268-319 | the rollover clears one slot; eviction of a record loses no counter but zeros |
| ScoreHistory.RingCounts | chanfix/cf_database.c:367-447 | in every run each counter is the number of registrations recorded since its slot was last rotated, modulo 65536 |
| ScoreHistory.LiveIsRecent | chanfix/cf_database.c:367-381 | with daily rotations a slot counts what happened on its one day of the last fourteen |
| RecentScores.ScoreBalance | chanfix/cf_database.c:367-447 | in every run whose rotations go forward (chanfix/cf_gather.c:48), a score exceeds the registrations of the last fourteen days by what the slots still count from before, less 65536 for each time a counter went round |
| RecentScores.ScoreExact | chanfix/cf_database.c:367-447 | in every such run without a wrap-around a score is the number of registrations of the last fourteen days if and only if no slot still counts an older one since its last rotation |
| RecentScores.ScoreIsRecentCount | chanfix/cf_database.c:367-447 | in every run with daily rotations a score is the number of registrations of the last fourteen days, through eviction and re-creation, if and only if none of those days has 65536 |
| ScoreHistory.RotationExact | chanfix/cf_database.c:367-381 | after a rotation to any later day a counter is right if and only if its slot was cleared, its day is still recent, or nothing happened on it |
| RecentScores.JumpedScoreExact | chanfix/cf_database.c:367-447 | after daily rotations and then one to any later day that is so if and only if no slot is stale: uncleared, out of the window, and used |
| RecentScores.SkippedDaysLeaveStalePoints | chanfix/cf_database.c:367-381 | a run: one registration on day 0, rotation to day 15; the score is 1, though no registration is recent |
| SaveFile.Save | chanfix/cf_database.c:1112-1173 | writes the file of the element, record by record |
| SaveFile.Load | chanfix/cf_database.c:852-976 | accepts exactly the well-formed files with matching CRC, and those that end inside the last op records, and reads them |
| SaveFile.AcceptedIsSaved | chanfix/cf_database.c:852-976 | whatever is accepted starts with exactly the file that saving what was read would write, or is that file cut short with blank records read for the missing ones |
| SaveFile.CutIsAccepted | chanfix/cf_database.c:946-950 | every file cut behind the first op record of its last channel, if that has no notes, is accepted, and the missing records come back blank |
| SaveFile.LoadInvertsSave | chanfix/cf_database.c:825-976 | loading what was saved gives the same index, ops, flags and histories, with the note slots closed up |
| SaveFile.ReloadKeepsView | chanfix/cf_database.c:1112-1173 | a reloaded element is still indexed, has the same list of notes, and can be saved again |
| SaveFile.RunStorable | chanfix/cf_database.c:1304-1322 | in every run every channel meets the condition for saving and loading, except one with an empty name |
| SaveDamage.SavedLayout | chanfix/cf_database.c:1112-1173 | the file is version, header, and for each channel length, name, fields, op records and notes, in this order |
| SaveDamage.ChecksumValue | chanfix/cf_database.c:825-848 | the checksum is the sum, in 32 bits, of the lower halves of the eight-byte words of the name and of five of the fields |
| SaveDamage.NameDamage | chanfix/cf_database.c:825-972 | a file with one byte of a name changed is refused if and only if the byte is one of the first four of a whole eight-byte word |
| SaveDamage.FieldDamage | chanfix/cf_database.c:825-972 | a file with a timestamp or flag changed by less than 2 to the 32 is always refused |
| FixSelection.TopUserHosts | chanfix/cf_database.c:556-591 | the first max records that match one of the given user@hosts, with their scores |
| FixSelection.TopIsBest | chanfix/cf_database.c:556-591 | on a channel in order that is the brute-force best: no matching record left out scores more |
| FixSelection.ThresholdFalls | chanfix/cf_fix.c:438-467 | the minimum score never rises with time and never goes below the END values rounded down inside the window |
| FixThreshold.ThresholdIsLinear | chanfix/cf_fix.c:636-664 | a score meets the threshold exactly if it is below neither line, from 20 to 4 percent of 4032 and from 90 to 30 percent of the best score, in whole numbers |
| FixThreshold.ThresholdAtStart | chanfix/cf_fix.c:636-664 | it starts at the higher of 806 and nine tenths of the best score |
| FixThreshold.ThresholdAtEnd | chanfix/cf_fix.c:636-664 | it ends at the higher of 161 and three tenths of it |
| FixThreshold.OppedAboveLines | chanfix/cf_fix.c:636-702 | whoever is opped within the window has a score that, give or take a fraction, lies above both lines |
| FixSelection.DistinctUserHosts | chanfix/cf_tools.c:323-343 | collects every user@host of the clients exactly once |
| FixSelection.FindScoredNicks | chanfix/cf_fix.c:721-768 | the clients of each user@host in turn, until the threshold or the number of slots is reached |
| FixSelection.PollSelects | chanfix/cf_fix.c:573-715 | polling for a limited number of user@hosts loses no client that would be chosen, and the best one polled shows whether anybody will be |
| FixSelection.RankingIsQualified | chanfix/cf_fix.c:721-768 | the ranking holds exactly the clients whose stored score meets the threshold |
| FixSelection.SelectionIsBest | chanfix/cf_fix.c:573-768 | on a channel in order an attempt ops exactly the min(slots, qualified) best clients, best first, nobody twice, and nobody left out scores more |
| FixSelection.BestMeansInOrder | chanfix/cf_fix.c:573-768 | that holds for all clients, slots and thresholds if and only if the records are in scoring order |
| FixReads.ClosedChannelsServeBest | chanfix/cf_database.c:1304-1322 | in every run it holds on every channel that is not open for writing |
| FixReads.ServesBestExactly | chanfix/cf_database.c:1304-1322 | in every run it holds on any channel, open or not, if and only if its records happen to be in order |
| FixReads.OpenChannelMisses | chanfix/cf_fix.c:573-768 | a run such as gathering makes, after which the open channel is out of order and a client that qualifies is passed over |
| FixSelection.LateSelection | chanfix/cf_fix.c:638-688 | once the threshold has fallen to zero or below, the selection is the best of all clients with a record |
| FixSelection.EnoughExact | chanfix/cf_fix.c:710-715 | there are enough ops when the least of all clients and the setting, five if there is none, have ops |
| FixSelection.StageTwo | chanfix/cf_fix.c:573-715 | one manual attempt, at any time, ops that selection, clients having user names; it is done exactly when there were enough ops already, or somebody is opped and then either all clients or enough have ops |
| FixSelection.FixOpless | chanfix/cf_fix.c:370-530 | one automatic attempt, at any time, ops that selection, clients having user names; it gives up on channels that never score enough, and is done in the same cases and also when nobody is opped but some ops are there and all clients have ops |
| FixModes.GiveOps | chanfix/cf_fix.c:680-703 | nothing goes out if nobody was chosen, and otherwise lines for the whole array of nicks, blank entries included |
| FixModes.ManualAttempt | chanfix/cf_fix.c:573-715 | the lines of one manual attempt are those for the selection made |
| FixModes.AutoAttempt | chanfix/cf_fix.c:370-530 | the lines of one automatic attempt are those for the selection made |
| FixModes.LettersForTheArray | chanfix/cf_fix.c:680-703 | every chosen client is opped once and in order, and the lines carry one mode letter for each entry of the array, blank or not |
| FixModes.LinesReadBack | chanfix/cf_tools.c:96-176 | a server reads every line as MODE, the channel, a plus with as many o as names, and the names that are not blank |
| FixTrigger.HasScoredClient | chanfix/cf_event.c:85-154 | on a channel in order: true exactly when some client scores above the threshold at the end of the window |
| FixTrigger.FixableMeansOpped | chanfix/cf_event.c:85-154 | that is exactly when an attempt at the end of the window ops someone with one point to spare |
| FixLists.Lists.IsBeingChanfixed | chanfix/cf_fix.c:35-50 | membership in the manual list |
| FixLists.Lists.IsBeingAutofixed | chanfix/cf_fix.c:52-67 | membership in the automatic list |
| FixLists.Lists.AddChanfix | chanfix/cf_fix.c:76-104 | adds a stage-one entry exactly when the channel is on neither list |
| FixLists.Lists.AddAutofix | chanfix/cf_fix.c:106-131 | adds an entry exactly when the channel is on neither list |
| FixLists.Lists.DelChanfix | chanfix/cf_fix.c:133-150 | removes the first entry of that name, or reports that there is none |
| FixLists.Lists.DelAutofix | chanfix/cf_fix.c:152-169 | removes the first entry of that name, or reports that there is none |
| FixLists.Lists.FixChanfixChannels | chanfix/cf_event.c:226-271 | a tick works every manual entry once, deleting while iterating; a split leaves the list alone |
| FixLists.Lists.FixAutofixChannels | chanfix/cf_event.c:273-309 | a tick works every automatic entry once, deleting while iterating; a split leaves the list alone |
| FixLists.TickManualNames | chanfix/cf_event.c:226-271 | a tick invents no name and doubles none |
| FixLists.TickAutoNames | chanfix/cf_event.c:273-309 | a tick invents no name and doubles none |
| FixLists.TickClears | chanfix/cf_event.c:226-309 | every unsplit tick removes the entries past their window |
| FixLaws.ManualTickExact | chanfix/cf_event.c:226-271 | a tick turns each manual entry into what 30, 300 and 3630 seconds make of it, in order |
| FixLaws.AutoTickExact | chanfix/cf_event.c:273-309 | a tick turns each automatic entry into what 600 and 3600 seconds make of it, in order |
| FixLaws.CompletedManualLeaves | chanfix/cf_event.c:226-271 | a manual fix that is completed, or whose channel is gone, leaves the list |
| FixLaws.CompletedAutoLeaves | chanfix/cf_event.c:273-309 | so does an automatic one |
| FixLaws.OpenManualStays | chanfix/cf_event.c:226-271 | a manual fix that is not completed and in time stays, attempted 300 seconds after the last attempt |
| FixLaws.OpenAutoStays | chanfix/cf_event.c:273-309 | so does an automatic one, after 600 seconds |
| FixLaws.StartedManualWaits | chanfix/cf_fix.c:534-568 | the first attempt of a manual fix comes 30 seconds after the channel was found |
| FixRuns.TickedEntries | chanfix/cf_event.c:226-309 | recording attempts beside the entries does not change what a tick does |
| FixLaws.AttemptsExact | chanfix/cf_event.c:226-309 | the attempts recorded are those the intervals allow |
| FixLaws.DropExact | chanfix/cf_fix.c:160-176 | dropping a channel takes exactly the first entry of its name off the list of automatic fixes |
| FixLaws.ManualEventExact | chanfix/cf_fix.c:81-111 | in a run a start puts the channel in front unless it is being fixed, an unsplit tick works the manual list off, and nothing else touches it |
| FixLaws.AutoEventExact | chanfix/cf_fix.c:115-141 | the same for the automatic list |
| FixLaws.NoneLost | chanfix/cf_event.c:226-309 | what a tick takes off a list is remembered as past |
| FixRuns.ManualKeepsOk | chanfix/cf_fix.c:534-568 | the stage only goes from 1 to 2, the first attempt waits for the delay, later ones for the interval |
| FixRuns.AutoKeepsOk | chanfix/cf_event.c:273-309 | attempts are an interval apart and, but for the last, inside the window |
| FixRuns.AttemptBounds | chanfix/cf_fix.h:33-51 | such a schedule has at most 8 automatic or 14 manual attempts |
| FixRuns.RunBounded | chanfix/cf_event.c:226-309 | in every run no name is on both lists or twice on one, and every fix, running or past, keeps those bounds |
| Gather.FirstsOnce | chanfix/cf_gather.c:175-215 | the collected list names every user@host of a qualifying op exactly once |
| Gather.FirstsExact | chanfix/cf_gather.c:185-202 | the list names a user@host exactly if an op has it and, when ident is asked for, no tilde in front of the user name |
| Gather.NoneWithReverse | chanfix/cf_gather.c:185-202 | asking for a reverse lookup leaves nobody, since no op ever gets that status |
| Gather.AddUserHost | chanfix/cf_tools.c:323-343 | appends the user@host unless it is there under case folding |
| Gather.CollectOps | chanfix/cf_gather.c:191-202 | the walk over the ops collects that list, with room to spare |
| Gather.UpdateScores | chanfix/cf_gather.c:175-290 | the same database events with fixed arrays and with allocated ones |
| Gather.GatherBucket | chanfix/cf_gather.c:134-164 | processes every channel of the bucket that is large enough, in order |
| Gather.Gatherer.GatherAll | chanfix/cf_gather.c:35-129 | one call takes the next buckets in turn until enough channels are seen; during a split it changes nothing but the day |
| Gather.RotatedExact | chanfix/cf_gather.c:47-54 | only a later day rotates the database, which then has nothing open and that day as the current one |
| Gather.SettingsExact | chanfix/cf_gather.c:70-101 | a setting below its least value stands for the default of four clients, or 1000 channels |
| Gather.EachBucketOnce | chanfix/cf_gather.c:80-129 | in every finished round, over any calls and splits, each bucket is processed exactly once |
| GatherPoints.RegisterAllKeys | chanfix/cf_gather.c:217-222 | which records exist after a list of registrations, in a table of 256 |
| GatherPoints.RegisterAllPoints | chanfix/cf_gather.c:217-222 | every user@host of the list that can be recorded gets exactly one point, and no other counter moves |
| GatherPoints.ChannelPoints | chanfix/cf_gather.c:175-223 | the same for the whole database: one point each in the day's slot of that channel, everything else unchanged |
| GatherTable.RewardsBefore | chanfix/cf_gather.c:175-223 | whether gathering a channel gives somebody a point is decided by the records from before the round |
| GatherTable.BucketPoints | chanfix/cf_gather.c:134-164 | gathering channels of different names gives one point to every recordable user@host of a qualifying op of a large enough channel for which there is room, and changes nothing else |
| GatherTable.RoundPoints | chanfix/cf_gather.c:35-129 | the same for the buckets that one call, or a whole round, works off |
| GatherTable.RoundOnChannel | chanfix/cf_gather.c:35-223 | on one channel of a round: a user@host with a record, or sure room for one, gets its point exactly if the channel is large enough and an op counts who has it; written out |
| Gline.Expire | src/gline.c:70-89 | deleting while iterating drops exactly the entries not voted on in time |
| Gline.Votes.Cleanup | src/gline.c:98-102 | both lists lose exactly their expired entries |
| Gline.CastVote | modules/m_gline.c:218-277 | the walk over the pending entries does what one vote does to the first entry for the mask |
| Gline.OutcomeExact | modules/m_gline.c:204-277 | a vote is refused exactly if the first entry pending for the mask has a vote of the same user@host or server, and takes effect exactly if it has two others |
| Gline.Votes.CheckMajority | modules/m_gline.c:204-277 | cleanup, then one vote on one list; nothing for a mask that is G-lined already |
| GlineRuns.PlacementNeedsMajority | modules/m_gline.c:204-277 | in every run whatever takes effect rests on three votes from pairwise different servers and user@hosts, none expired before the next |
| GlineLaws.ThreePeople | modules/m_gline.c:204-277 | written out: three votes with different servers, different in user or host, for masks that agree once cut, each in time |
| GlineRuns.MajorityOnMask | modules/m_gline.c:167-195 | the three votes are for that mask if and only if the first voter's mask fitted its buffer |
| GlineRuns.RunUnique | modules/m_gline.c:167-277 | never more than one pending entry for a mask and type, if and only if no first vote comes for a mask that is pending already as it would be stored |
| GlineRuns.VotedUnique | modules/m_gline.c:167-277 | the same for one vote |
| GlineRuns.NoClashSeparate | modules/m_gline.c:167-277 | that is so if nobody votes on an over-long mask after a vote that is stored the same |
| GlineFresh.FreshExactly | modules/m_gline.c:204-277 | after a placement the next one for that mask and type rests, in every continuation, on three votes all cast since, if and only if no entry for the mask is left on the list |
| GlineFresh.PlacementNeedsFreshMajority | modules/m_gline.c:204-277 | in every run with one entry for each mask every placement rests on three votes cast since the last one for that mask |
| GlineLaws.ThreeFreshPeople | modules/m_gline.c:204-277 | written out, the same with none placed for the mask since the first of the three |
| GlineLaws.VoteKept | modules/m_gline.c:150-277 | a first vote is put in front with oper, mask as cut, reason and time; a second one joins it and moves the time |
| GlineLaws.RunIsVotes | modules/m_gline.c:204-277 | one event of a run does to both lists exactly what a vote, or the timer, does to them |
| GlineRuns.OverlongMaskLendsItsVote | modules/m_gline.c:167-195 | a mask one character too long lends its vote to another mask |
| GlineRuns.OverlongMaskDoubles | modules/m_gline.c:167-277 | two votes for one mask, a character too long, leave two entries stored alike |
| GlineRuns.OverlongMaskPlacesTwice | modules/m_gline.c:204-277 | four votes for the shorter mask then place it twice, the second time without three fresh votes |
| MergeOrder.MergeArranged | libltdl/slist.c:272-300 | merging stably sorted lists is stable when ties favour the left |
| MergeOrder.SortedArranged | libltdl/slist.c:306-336 | for every comparator that is a total preorder on the items the sort is a stable sorted permutation |
| SList.SortMerge | libltdl/slist.c:272-300 | relinks the items of two lists into their merge |
| SList.Split | libltdl/slist.c:311-329 | the two-step walk cuts a list of n >= 2 items into its first n/2 and the rest |
| SList.Sort | libltdl/slist.c:306-336 | terminates, relinks exactly the given items, and for a total preorder on them leaves them sorted with equivalent items in their old order |
| SList.Concat | libltdl/slist.c:141-158 | the items of the second list behind those of the first |
| SList.Reverse | libltdl/slist.c:222-238 | the same items in opposite order |
| SList.Remove | libltdl/slist.c:77-111 | takes out exactly the first item for which the callback gives something, and returns that |
| DLink.List.Add | include/tools.h:101-114 | head, tail, links and length agree with the sequence, the node now first |
| DLink.List.AddBefore | include/tools.h:116-130 | the node stands right before the given one |
| DLink.List.AddTail | include/tools.h:132-145 | the node stands last |
| DLink.List.Delete | include/tools.h:150-172 | the node is gone and its own links are NULL |
| DLink.List.Find | include/tools.h:180-192 | the first node that carries the data, or NULL |
| DLink.List.FindDelete | include/tools.h:229-261 | takes out the first node that carries the data, or changes nothing |
| DLink.MoveList | include/tools.h:194-227 | one list gets the nodes of both, the moved ones first, and the other is empty |
| Tokens.SplitJoin | chanfix/cf_tools.c:376-416 | splitting at a separator undoes joining with it |
| Tokens.SplitPieces | chanfix/cf_tools.c:376-416 | the pieces are non-empty and free of separators |
| Argz.CreateSep | libltdl/lt__argz.c:79-128 | for every string and delimiter: the non-empty fields with exact length, and one more NUL if the string is empty or ends in the delimiter |
| Argz.CreatedExactly | libltdl/lt__argz.c:79-128 | exactly the fields if and only if the string ends in something else than the delimiter |
| Argz.NextEnumerates | libltdl/lt__argz.c:177-208 | the cursor visits exactly the entries, in order, and then is NULL |
| Argz.Vector.Append | libltdl/lt__argz.c:48-76 | appending a vector to a vector gives the vector of the entries of both |
| Argz.Vector.Insert | libltdl/lt__argz.c:131-174 | the entry comes before the one pointed into, or last |
| Argz.Vector.Stringify | libltdl/lt__argz.c:211-225 | the wrapping counter stays inside the vector exactly without a separator or from two bytes on, and then every terminator between the first and the last byte is replaced |
| Argz.StringifyJoins | libltdl/lt__argz.c:211-225 | that stays in bounds and gives the joined entries if and only if there is a first entry and it is not empty |
| Argz.EmptyStringTooShort | libltdl/lt__argz.c:79-225 | the vector made from an empty string has one byte and cannot be stringified |
| Argz.StringifyThenCreate | libltdl/lt__argz.c:79-225 | creating a vector from the stringified one gives it back |
| Argz.CreateThenStringify | libltdl/lt__argz.c:79-225 | stringifying a created vector gives the string without superfluous delimiters |
| Argz.InsertedAscending | libltdl/ltdl.c:1748-1769 | inserting before the first greater entry keeps the order strict |
| Argz.Vector.InsertInOrder | libltdl/ltdl.c:1720-1769 | adds exactly the new entry in strict order, or nothing if it is there |
| CommaList.Tokenize | chanfix/cf_tools.c:376-416 | cuts the string in place so that the pointers are to exactly its non-empty pieces; with more than 254, and only then, the last one is to the uncut rest and the array is overrun |
| AccountLists.ListField.Has | chanfix/cf_user.c:266-291 | membership among the pieces of the scratch copy |
| AccountLists.ListField.Add | chanfix/cf_user.c:206-228 | appends if absent and the total stays within 256 characters |
| AccountLists.ListField.Del | chanfix/cf_user.c:232-262 | clears the list and adds back all pieces but one |
| AccountLists.AddedItem | chanfix/cf_user.c:349-371 | adding appends a new item exactly when there is room, and keeps the items different |
| AccountLists.MembershipExact | chanfix/cf_user.c:417-442 | membership is right for every item if and only if the list has at most 255 characters |
| AccountLists.DeletedExactly | chanfix/cf_user.c:375-405 | deleting an item leaves exactly the others, in order, if and only if the list has at most 255 characters |
| AccountLists.ThreeMasksFill | chanfix/cf_user.c:349-371 | adding masks of 85, 85 and 84 characters makes a list of 256 in which the last one is not found |
| Modes.SizeIsLength | chanfix/cf_tools.c:129-176 | the size worked out in advance is the length of the command |
| Modes.PerformModeNum | chanfix/cf_tools.c:129-176 | sends as many of the arguments as fit, on one line shorter than 512 |
| Modes.PerformModeGroup | chanfix/cf_tools.c:96-127 | the lines together carry exactly the arguments that fit on a line, in order and once, never more than the limit each |
| ModeLines.LineReadsBack | chanfix/cf_tools.c:129-176 | read back at the spaces a line is MODE, the channel, the sign with one letter for each argument, and the arguments that are not blank |
| ModeLines.FitsExact | chanfix/cf_tools.c:129-176 | an argument is left out if and only if a line with it alone would be too long |
| ModeLines.FittingSome | chanfix/cf_tools.c:96-127 | every other argument is kept as often as it is given |
| CapText.CapabSearch | modules/m_cap.c:70-87 | orders the first word of the list against a name as strings under folding |
| CapText.Search | modules/m_cap.c:107-110 | the binary search finds the entry for that word exactly when there is one |
| CapText.FindCap | modules/m_cap.c:89-133 | looks up the next item and always moves on behind it |
| CapText.FoldsAgree | src/match.c:228-301 | names are equal under this folding exactly when they are for irccmp |
| CapLaws.ItemsRead | modules/m_cap.c:89-133 | a list written item by item, a minus in front of what is given up, is read as these items |
| Cap.LastWordCounts | modules/m_cap.c:226-256 | each capability named ends as its last mention says, in both masks, with set and rem disjoint; the rest is unchanged |
| Cap.Connection.Request | modules/m_cap.c:215-264 | all items are applied if all are acceptable, otherwise nothing is |
| CapLaws.GrantedExact | modules/m_cap.c:226-246 | an item is accepted exactly if it names a capability that is not prohibited, or, given up, not sticky |
| CapLaws.RequestExact | modules/m_cap.c:215-264 | if all items are granted every capability is held, and unless it waits for an acknowledgement in force, as its last mention says; if not, nothing changes |
| Cap.AckCounts | modules/m_cap.c:267-293 | an acknowledgement counts exactly when it agrees with what the client asked for |
| Cap.Connection.Acknowledge | modules/m_cap.c:267-293 | applies the items of the list in turn to the active mask only |
| CapLaws.AcknowledgeExact | modules/m_cap.c:267-293 | what is held comes into force when named, what is not held goes out of it when named with a minus; nothing else changes |
| Cap.Connection.Clear | modules/m_cap.c:296-318 | takes away exactly the capabilities held that are not sticky, from the active mask only the plain ones |
| CapLaws.ClearExact | modules/m_cap.c:296-318 | only what is sticky stays held |
| Cap.RunKeeps | modules/m_cap.c:215-318 | in every run no prohibited capability is held and every plain one is active exactly when held |
| Cap.StickyStays | modules/m_cap.c:215-318 | in every run a sticky capability once held is never lost |
| Users.GetUser | chanfix/cf_user.c:881-893 | the first live account of that name |
| Users.CountFlags | chanfix/cf_user.c:446-469 | counts the live non-owners with the flag on that main server |
| Users.Store.AddFlag | chanfix/cf_process.c:978-1062 | adds the flag exactly when every check passes |
| Users.Store.DelFlag | chanfix/cf_process.c:1066-1125 | removes the flag exactly when every check passes |
| Users.Store.AddUser | chanfix/cf_process.c:1228-1273 | a new account without flags, with the given hostmask, on the server of a mere server admin |
| Users.Store.DelUser | chanfix/cf_process.c:1277-1323 | marks the account deleted exactly when every check passes |
| UserLaws.AddFlagExact | chanfix/cf_process.c:978-1062 | only the named account changes, and gets the flag exactly if the giver's flags govern it, the account is no owner and its server has room |
| UserLaws.DelFlagExact | chanfix/cf_process.c:1066-1125 | only the named account changes, and loses the flag exactly if the giver's flags govern it |
| UserLaws.DelUserExact | chanfix/cf_process.c:1277-1323 | only the named account changes, and is deleted exactly if it is no owner, is no manager unless an owner asks, and is on a mere admin's server |
| UserLaws.AddUserExact | chanfix/cf_process.c:1228-1273 | a free name gives a new account in front, with a new id, name and hostmask as cut, and no flags |
| UserLaws.HoldersCounted | chanfix/cf_user.c:446-469 | the count is the number of live accounts on the server with the flag that are not owners |
| Users.OwnersStay | chanfix/cf_process.c:978-1323 | over every run the owners are the same accounts |
| Users.ManagersStay | chanfix/cf_process.c:978-1323 | over every run without an owner's command the user managers are the same accounts |
| Users.LimitKept | chanfix/cf_process.c:1023-1048 | over every run a server once within its limit of f or b flags stays within it |
| Users.StepUnique | chanfix/cf_user.c:62-76 | account ids stay unique |
| Users.NewNameUnique | chanfix/cf_user.c:87-105 | live names stay unique if and only if the name as cut is free too |
| Users.RunNames | chanfix/cf_process.c:1228-1273 | over every run live names stay unique if and only if every new name is free as it is stored |
| Users.LongNameDoubles | chanfix/cf_user.c:87-105 | a name one character too long doubles a live account's name |

## Left out

- Sockets, events, reconnecting, joining and parting channels, reply texts, notices, logs and settings files.
- File names, backups and raw struct layout of the save file: a file is a sequence of typed records and writes succeed. A stored note count above eight, for which the original writes past its array, is rejected; a cut through the middle of a record is not modelled.
- Memory: allocation succeeds and returns zeroed memory, as `MyMalloc` does.
- Rounding of floats: thresholds are exact reals, converted to integers toward zero.
- The global read-channel pointer: the channel read is passed to each reader instead.
- Channel names: an empty name, for which the hash reads past the terminator, is hashed as if a second terminator followed.
- FixLists.Lists.AddChanfix: the highest score is a parameter; polling it, opening the channel for writing and recording the time of the fix are not part of it.
- FixLists.Lists.AddAutofix: the same.
- DB_poll_channel, DB_get_op_scores, DB_get_oplist beyond one entry, and the fix histories, which are only stored, saved and loaded.
- ocf_check_opless_channels and CHANFIX are modelled by the decisions they rest on (HasScoredClient, AddAutofix, AddChanfix, DelAutofix), not as whole commands.
- Gather.GatherBucket: hash-table statistics, which only skip empty buckets, and the counters kept for the log are left out; CH_MAX is a parameter.
- GlineRuns.PlacementNeedsMajority: assumes that voters are registered, that is, have a user name; an empty one marks an absent second vote.
- GlineFresh.FreshExactly: the same, in the run and in its continuations.
- GlineFresh.PlacementNeedsFreshMajority: the same.
- FixSelection.StageTwo: does not cover clients without a user name, whom the zeroed entries of the score array match once the threshold is zero or below.
- FixSelection.FixOpless: the same.
- FixModes.ManualAttempt: the same.
- FixModes.AutoAttempt: the same; the removal of channel modes before giving up is not modelled.
- Gline.Votes.CheckMajority: reasons are kept whole, nicknames and request times not at all; whether a mask is G-lined already is a parameter; setting and removing the G-line itself is not modelled.
- CommaList.Tokenize: what the write past the end of the array of pointers does is not modelled; the account lists never have more than 128 tokens.
- Argz.Vector.Stringify: what happens once the counter has left the vector is not modelled; the method reports it and stops.
- CapText.Search: the table is taken as sorted under the folding of `ToLower`; `capab_sort` sorts with `strcasecmp`, which is the same for names of letters, digits and hyphens.
- Cap.Connection.Request: masks are sets of bit numbers, one bit for each capability; LS, LIST, END and the wire form of the acknowledgement are not modelled.
- Users: REHASH, SETMAINSERVER, passwords, hosts and login sessions; the account giving a command is passed as it stands.
- DLink.List.Delete and SList.Sort: freeing nodes is not modelled.
- The other functions of slist.c (nth, length, find, foreach, box) and of libltdl, and the other command modules.
