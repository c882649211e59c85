# finstats, verified

A Dafny model of the parts of finstats where a mistake would not show in one place: the timing of the
collector, the bookkeeping of plays, and the algorithms around them. Each file is one component, named
after what it models. Code that works on fields and loops is a class or a method with loops here too,
proved against functions on plain values; what the source and its documentation promise is then proved
about those functions, for all inputs and, where the component lives on, for every run.

A function that decides something has a lemma beside it that says what it decides without it, with the numbers
written out (`AnswerIsTold`, `TheNetFallsExactly`, `AssessedExactly`, and the like).

| file | models |
|---|---|
| `Gate.dfy` | the rate limiter every `/Sessions` read goes through |
| `Transport.dfy` | the clocks behind the one-shot read, the pause debounce, the published picture and its self-check |
| `Loop.dfy` | the collector's loop as a step relation, and whole runs of it |
| `Tracking.dfy` | what one session list does to the plays followed and to their rows |
| `Fuzzy.dfy` | the edit distance of the search, with its early exits |
| `Groups.dfy`, `GroupTable.dfy` | clustering plays watched together, and the `group_id` column |
| `Travel.dfy`, `Bursts.dfy`, `LookBack.dfy` | impossible travel, new countries, filing alerts; runs of failed sign-ins, and what a scan that only looks back so far finds of them |
| `Recent.dfy` | the list of what arrived lately |
| `Simplify.dfy` | thinning a country's outline |
| `Notify.dfy`, `Deliveries.dfy`, `Drain.dfy`, `Capped.dfy` | who is told what, how often it is tried and how much in a minute; the queue over whole runs; the loop that empties it; runs that use up the minute again and again |
| `Plays.dfy`, `Merging.dfy`, `Linking.dfy`, `Restore.dfy` | merging a backup and writing one; linking plays to the library again; the whole of a restore |
| `Relink.dfy` | cleaning the raw name of a title |
| `Streaks.dfy` | runs of consecutive days |
| `Clock.dfy`, `Numbers.dfy`, `Options.dfy`, `Sets.dfy`, `Text.dfy` | time in nanoseconds with saturating subtraction; small shared definitions |

Time is a natural number of nanoseconds in the collector and a whole number of seconds elsewhere; a
calendar day is its number; floating-point quantities are `real`. Clocks never go backwards and the
database never fails: both are preconditions where they matter. A table with a key of its own is a map,
other tables are sequences in the order the query lists them.

## What the code does not promise after all

Some claims turned out to hold only under a condition. The model follows the code; where a claim fails, its
exact condition is proved, and an input that fails it is given.

- **Restoring a backup twice** (src/backup.rs:15-16 says it is safe). A restore ends by linking plays whose
  item is gone to the item that stands for it now, which rewrites their item id. A play without an import id
  is recognised by user, item and start, so once it was moved it is not recognised and comes in again.
  `Restore.MergingAgain`: merging the file again goes through and adds or changes nothing if and only if no
  play of the file without an import id names an item that the first linking moved
  (`Restore.RestoringTwiceCanDouble` is the smallest case).
- **The linking that follows** can change the tables as well, with nothing moved the first time and nothing
  added the second. A title that is not found has the name it was looked up by cleaned, another of its names
  can then be the greatest, and that one is looked up the next time. `Linking.LinkingTwice`: a second linking
  changes nothing if and only if no title is stirred like that, and `Linking.OneNameEach`: it is so when each
  title that is neither live nor remembered goes by one name. `Restore.RestoringTwice` puts both together: a
  second restore goes through and leaves everything as it was if and only if no such play was moved and no
  title is stirred; `Restore.RestoringTwiceCanMove` and `Linking.LinkingAgainCanMove` are the case of two
  names, "[tmdbid-9] Alpha" and "Film".
- **A backup bringing everything back**, restored into an empty database, the linking at the end included
  (`Restore.ABackupComesBack`). Every play comes back if and only if no play without an import id shares its
  user, item and start with an earlier one; of two such plays one is lost (`Restore.ATwinIsLost`). A play that
  comes back has all its columns and its timeline, and its name unless it is called by the very name its
  title is looked up by and cleaning changes that name: "[tmdbid-9] Alpha" comes back as "Alpha"
  (`Restore.ANameCanBeCleaned`).
- **A restore leaving what was there alone** (src/backup.rs:15-16). The merge does
  (`Merging.MergingOverwritesNothing`); the linking after it can move a play that was there to a live item or
  clean its name, and only when the play's own item is not there (`Restore.WhatWasThereStays`).
- **A scan finding again what the last one found** while a play is still going on, and ends later than it
  had by then. What was found up to and including that play stays (`Travel.FindingsDoNotWait`); what is found
  at the sightings after it can change (`Travel.ALaterEndCanTell`; `Travel.APlayThatWentOn` is a case).
- **A rescan finding the same bursts** (src/security.rs:279-280). The scan only sees the last seven days, and a
  burst that began before the cut and ended after it is not found as it was, and failures of it can be found
  again as another one. `LookBack.LookBackFindsTheSame`: failure by failure the scan finds the same bursts if and only
  if none of those after the cut began before it; `LookBack.ABurstCanBeFoundTwice` is the case of six failures.
- **The delivery loop returning with nothing left to do** (src/notify.rs:767). Rows of kinds this version
  does not know are set aside only after the twenty due rows were read, so twenty of them at the head of the
  queue hide everything behind them. `Drain.Queue.Drain`: when no destination was deleted, a due row of a
  known kind is still due at the end if and only if twenty due rows of unknown kinds come before it;
  `Drain.ARowCanStarve` is a queue of twenty-one events that ends like that.
- **Twenty messages a minute** (src/notify.rs:47-48) is counted in memory. In every run it is twenty for each
  process that ran in the minute (`Deliveries.NeverMoreThanTwentyAMinute`). After a restart the next due row
  goes out however many went before it (`Deliveries.ARestartLetsOneMoreOut`), and for any number of restarts
  there is a run in which each process sends its twenty (`Capped.TwentyForEachProcess`).
- **Nobody being told twice**: a message accepted by a destination is sent again only if a restart came
  between sending it and recording that (`Deliveries.ToldAtMostOnce`), and then it is
  (`Deliveries.CutShortIsSentAgain`).
- **Five attempts at most** (src/notify.rs:666-667) holds for failures that carry no Retry-After: a row is
  given up exactly when a failure that asks for no time is its fifth or a later one (`Notify.LadderHolds`,
  proved of every row of every run by `Deliveries.RowsAreWanted`).
- **Five attempts over about eight hours** (src/notify.rs:667): the waits of the code add up to 4350 seconds, an
  hour and a quarter (`Notify.TheLadderTakes`).
- **Dropped points being within the tolerance** (tools/make-world-map.py:34-55) holds if and only if the
  tolerance is not negative or nothing is dropped (`Simplify.DroppedAreWithinExactly`): a point exactly on the
  chord is dropped whatever the tolerance (`Simplify.DroppedBeyondTheTolerance`). The program itself passes
  a positive one.

A cleaned name holds no tag that the parser recognises, though the text of one may be left inside another
bracket (`Relink.ATagInsideABracketStays`).

## Model

| member | source | states |
|---|---|---|
| Gate.WaitIsExact | src/collector.rs:349-358 | the wait a window answers with is exact: with no read accepted meanwhile it still refuses at any moment up to a millisecond short of it, and at none after |
| Gate.FreeInMeans | src/collector.rs:349-358 | what the sort-and-index code decides: the read `limit` places from the end of the history has to be a window old |
| Gate.PruningChangesNoVerdict | src/collector.rs:344-347 | dropping reads a minute old never changes the verdict of a window of a minute or less |
| Gate.SpacedBoundsEveryWindow | src/collector.rs:305-313 | spacing bounds the reads in every half-open window, wherever it begins |
| Gate.GrantedExactlyWhenFew | src/collector.rs:362-370 | a read is granted if and only if fewer than two were granted in the last second and fewer than seventy in the last minute |
| Gate.AnswerIsTold | src/collector.rs:349-370 | the answer from the times alone: wait until the last read but one is a second old, or else the seventieth from the end a minute, a millisecond on top; or go ahead |
| Gate.RefusedMeanwhile | src/collector.rs:349-370 | the wait answered is never too long: with no read accepted meanwhile the gate refuses at any moment up to a millisecond short of it |
| Gate.CountIsTheNumber | src/collector.rs:305-313 | a half-open window holds as many reads as are timed in it |
| Gate.ListeningCounts | src/collector.rs:380-383 | what counts as read while listening is exactly the reads made while listening, no earlier than the given time and less than a minute ago |
| Gate.AskingKeepsTheLaw | src/collector.rs:362-370 | asking over the pruned list answers as the whole history would, and keeps the spacing of the history and the list's relation to it |
| Gate.Reads.Prune | src/collector.rs:344-347 | what is kept is the history without reads a minute old |
| Gate.Reads.Take | src/collector.rs:362-370 | the answer and the new history are functions of every read ever granted, not of the list that happens to be kept; refusals are counted |
| Gate.Reads.LastMin | src/collector.rs:373-376 | the count reported equals the full history's count for the last minute, and is never over seventy |
| Gate.Reads.ListeningSince | src/collector.rs:380-383 | equals the full history's count of reads made while listening |
| Gate.Reads.Report | src/collector.rs:386-393 | speaks at most once a minute; refusals told and pending together stay all refusals |
| Gate.Reads.EveryWindowHolds | src/collector.rs:305-313 | after any use of the gate: at most 2 reads in any half-open second of the full history, 70 in any half-open minute, and no refusal lost or told twice |
| Gate.SessionsSlot | src/collector.rs:404-412 | one slot: the gate's answer, with what it says accounted for |
| Gate.FreeOnceWoken | src/collector.rs:416-424 | once the wait is over the window that refused is free, and the other has not filled up |
| Gate.SessionsWaiting | src/collector.rs:416-424 | as the only caller it always gets its slot, on the third of its four tries at the latest, whatever the sleeps run over by, and no later than a second, a minute, two milliseconds and those overruns after it asked |
| Transport.DueMeansLongAgo | src/collector.rs:510-517 | while `activity` is never older than `read`, a due one-shot read means the last attempt is 60 s ago, 300 s with nothing loaded |
| Transport.DueExactly | src/collector.rs:506-517 | a one-shot read is due if and only if the five-minute net fell or there was a minute of silence with something loaded; the five-second floor never decides |
| Transport.DueInExactly | src/collector.rs:504-517 | the time a read is said to be due in is exact: with nothing read or heard meanwhile it is due from then on, and not before |
| Transport.Net.TakeRead | src/collector.rs:491-494 | an attempt re-arms both clocks whatever the gate answers |
| Transport.Activity | src/collector.rs:260-264 | counts sessions loaded and sessions running |
| Transport.ActivityCounts | src/collector.rs:260-264 | the sessions counted are those with something loaded, and those of them that are not said to be paused |
| Transport.Decide.See | src/collector.rs:673-688 | the mode and the debounce after one reading |
| Transport.CounterIsTheRun | src/collector.rs:683 | over a whole history of readings the counter is the length of the paused run at its end, saturating at `u32::MAX` |
| Transport.RunReaches | src/collector.rs:659-669 | that run reaches `k` if and only if the last `k` readings were all loaded and paused |
| Transport.ModeAfterAReading | src/collector.rs:659-689 | after a reading with a live socket the mode is Listen if and only if nothing plays and nothing is loaded or the last three readings were all paused; a subscription is wanted exactly then |
| Transport.PictureAfterAReading | src/collector.rs:626-643 | a picture published after a reading satisfies every rule of `disagrees` if and only if the wire has the subscription as asked and, while listening, the reads are few |
| Transport.FallbackIsAlwaysInOrder | src/collector.rs:279-291 | without a socket the mode is polling and the picture is always in order |
| Transport.InOrderExactly | src/collector.rs:626-643 | nothing is complained of exactly when listening has a connection, a subscription, no beat and at most two reads, polling a play a beat and no subscription, and falling back a beat; and whatever is complained of is so |
| Loop.StepKeeps | src/collector.rs:753-1064 | every step keeps: `activity` not older than `read`, one-shot reads apart, the gate's law, the debounce count |
| Loop.RunKeeps | src/collector.rs:753-1064 | and so does every run |
| Loop.TheNetFallsExactly | src/collector.rs:443-517 | in every run the beat runs unless the loop listens, and a one-shot read is due exactly when it does and no read was made for five minutes, or something is loaded and for a minute there was no push, no read and no fresh subscription |
| Loop.RunIsTold | src/collector.rs:753-1064 | what the loop knows at the end of any run is what the events say: time, socket, subscription, last list, and whether to listen |
| Loop.EveryReadIsOnRecord | src/collector.rs:484-494 | every read of a run, granted or refused, is on record with its moment and what was loaded then |
| Loop.AReadGoesOutExactlyWhenFew | src/collector.rs:362-370 | in every run a read of any kind goes out exactly when fewer than two did in the last second and fewer than seventy in the last minute; only the one-shot reads count as made while listening |
| Loop.OneShotReadsAreFarApart | src/collector.rs:439-494 | in every interleaving, refused attempts included, a one-shot read is attempted at least 60 s after any earlier attempt, 300 s with nothing loaded |
| Loop.NeverAStorm | src/collector.rs:484-494 | any span of time of any run holds at most one one-shot read per whole minute of it, and one more |
| Loop.GateHoldsInEveryRun | src/collector.rs:305-313 | in every run, at most 2 reads in any second and 70 in any minute |
| Loop.EachTakesAMinute | src/collector.rs:42-51 | the n-th one-shot read of a span is n - 1 minutes into it |
| Loop.OneShotsAreCounted | src/collector.rs:484-494 | what is counted in a span are the one-shot reads on record made in it |
| Loop.ListeningAsksAtMostOnce | src/collector.rs:433-437 | at every moment of every run at most one read was made while listening in the last minute |
| Loop.NeverListeningAndAsking | src/collector.rs:632-635 | so the loop's own reads never make the picture complain of asking anyway |
| Loop.PictureAfterAnyRun | src/collector.rs:523-553 | after a reading with a live socket, in any run: the mode is as promised, and the picture is in order if and only if the wire has the subscription as asked |
| Loop.ThePictureSaysWhatIs | src/collector.rs:279-291 | at every moment of every run the picture has fallen back exactly while the socket is not live, listens exactly when the loop does, paused when something is loaded, and shows a beat exactly when it does not |
| Loop.Collector.constructor | src/collector.rs:726-752 | the objects the loop owns start as the empty run |
| Loop.Collector.Read | src/collector.rs:824-884 | a read of the imperative loop is a step of the relation, with the gate's answer |
| Loop.Collector.Saw | src/collector.rs:916-919 | acting on a session list is a step of the relation |
| Loop.Collector.Hears | src/collector.rs:847-851 | a push heard is a step of the relation, and breaks the silence (`Loop.TheNetFallsExactly`) |
| Loop.Collector.Wired | src/collector.rs:792 | what the wire says of the subscription is a step of the relation |
| Tracking.ActiveRowsAreTheFollowedPlays | src/collector.rs:712-724 | in every run from a clean start the rows marked active are exactly the rows of the plays followed, one to one, across continued plays and restarts |
| Tracking.TimeIsWhatTheSightingsSay | src/collector.rs:1096-1115 | in every run a play's watched and paused time are what its sightings say, and together every capped gap once |
| Tracking.HistoryIsTheSightings | src/collector.rs:1067-1215 | in every run a play is followed exactly when it was sighted since it last ended and since the process started, and its history is those sightings |
| Tracking.HowAPlayEnds | src/collector.rs:1188-1215 | in every run a play that ends is dropped exactly when watched for less than two seconds, and else closed with the row its sightings call for: begun when first seen, or when the row it continued was, ended when last seen, with what was watched and paused in between on top of that row |
| Tracking.ARestartLosesLittle | src/collector.rs:712-724 | a new process finds a play as it was last written: less than half a minute before its last sighting, since when nothing had changed; dropped if less than two seconds were written |
| Tracking.ClosedRowStays | src/collector.rs:1144-1163 | a closed row stays exactly as it is until a play continues it or its owner deletes it |
| Tracking.DeletedRowGoes | src/stats.rs:578 | and then it is gone, and every other row is as it was |
| Tracking.WhatIsContinued | src/collector.rs:1145-1166 | what a first sighting continues is a closed live row of the same person, item and device that ended inside the window, none of those later; it gets a new row exactly when there is none, or rows are not to be continued |
| Tracking.EveryGapIsCreditedOnce | src/collector.rs:247-255 | watched plus paused time is the sum of the capped gaps |
| Tracking.PausedIsNeverWatched | src/collector.rs:247-249 | a play paused at every sighting but the last gains no watch time, however long the gaps |
| Tracking.NothingIsLost | src/collector.rs:1097-1099 | sightings no more than 90 seconds apart lose nothing: the gaps add up to the time from the first to the last |
| Tracking.LongGapsAreCapped | src/collector.rs:1097 | of longer gaps each counts for 90 seconds |
| Tracking.RoundIsNearest | src/collector.rs:1114-1115 | a duration is the nearest whole number of seconds, the greater of two |
| Tracking.StepKeeps | src/collector.rs:1067-1215 | every sighting, ending, restart and deletion keeps the invariant |
| Tracking.RunKeeps | src/collector.rs:1067-1215 | and so does every run |
| Tracking.DurationNeverDrops | src/playback.rs:116-127 | no step lowers the duration of a row |
| Tracking.DurationNeverDropsInARun | src/playback.rs:116-127 | nor does any run, while the row exists |
| Tracking.KeptRowStays | src/collector.rs:1198-1209 | a live row of at least `MIN_KEEP_S` survives every step of the collector |
| Tracking.AContinuedPlayIsNeverDropped | src/collector.rs:1144-1163 | a live play once kept is never dropped again, however often it is continued and however soon it ends |
| Tracking.Choose | src/collector.rs:1145-1166 | a first sighting continues a latest resumable row of the same person, item and device, or gets a new row exactly when there is none |
| Tracking.Collector.Tick | src/collector.rs:1067-1215 | one session list is a run of steps; afterwards exactly what is listed is followed, each play that went on was credited its gap once however often it is listed, each listed ends now for the time being, and each that ended was dropped or closed with its times |
| Tracking.Collector.Sight | src/collector.rs:1096-1186 | one listed session is one step of the relation |
| Fuzzy.Within | src/fuzzy.rs:39-61 | answers yes if and only if the distance by recursion is at most `max`, through both early exits |
| Fuzzy.WithinMeansTyped | src/fuzzy.rs:37-39 | that is, if and only if the word can be typed with at most `max` slips, swapped neighbours being one |
| Fuzzy.NoFewerSlips | src/fuzzy.rs:49-53 | no way of typing takes fewer slips than the table says |
| Fuzzy.SomeWayTakesThatMany | src/fuzzy.rs:49-53 | and some way takes exactly that many |
| Fuzzy.LengthsApart | src/fuzzy.rs:41-43 | the exit on lengths is sound |
| Fuzzy.NextRowBeyond | src/fuzzy.rs:50-57 | a row wholly beyond `max` puts the next beyond it, though a swap reads the row before last |
| Fuzzy.EveryRowBeyond | src/fuzzy.rs:55-57 | so the exit on a row is sound |
| Fuzzy.NextRow | src/fuzzy.rs:46-54 | the inner loop fills the next row of the table from the two above it |
| Groups.Cluster | src/groups.rs:33-55 | returns exactly the plays that belong to a group, with their groups |
| Groups.TogetherMeansOneGroup | src/groups.rs:22-55 | complete: two plays by different people that start within the window and share 120 s get the same group |
| Groups.TogetherIsTwoMinutes | src/groups.rs:44-47 | two plays are together exactly when they are by different people who were both playing for two whole minutes |
| Groups.GroupedExactly | src/groups.rs:33-55 | a play has a group exactly when it is connected, start by start within the window, to one by somebody else with whom it shared two minutes |
| Groups.OneGroupExactly | src/groups.rs:33-55 | and two that have one have the same exactly when they are connected |
| Groups.GroupedMeansTogether | src/groups.rs:43-51 | sound: a grouped play has a partner by someone else, connected to it, with whom it shared two minutes and shares the group |
| Groups.GroupIsItsLeastMember | src/groups.rs:49 | a group is named by the least id of its members |
| Groups.GroupsDiffer | src/groups.rs:49-50 | two plays with one group id are in one chain |
| Groups.CompanyIsMutual | src/groups.rs:48 | the check for two people never turns away a chain with company |
| GroupTable.OneItemIsEnough | src/groups.rs:92-131 | in a column right for every other item, recomputing one item gives what recomputing everything gives |
| GroupTable.EditThenRegroup | src/groups.rs:92-131 | so after plays of one item changed, recomputing that item brings the whole column up to date |
| GroupTable.SecondRunChangesNothing | src/groups.rs:92-131 | a second run changes nothing, and the column is right wherever the first looked |
| GroupTable.Stream | src/groups.rs:103-118 | streaming batches by item answers every play as its item clustered on its own |
| GroupTable.Update | src/groups.rs:122-126 | clearing and then writing leaves what the assignments last say, and touches no other play |
| GroupTable.Playbacks.Detect | src/groups.rs:93-131 | the column afterwards is the recomputed one, and the number returned counts its groups |
| GroupTable.WatchedTogetherShareAGroup | src/groups.rs:1-7 | after a full run two plays of one item watched together carry one group |
| GroupTable.AGroupMeansCompany | src/groups.rs:1-7 | and a play that carries a group has company that carries it too |
| GroupTable.GroupedPlaysExactly | src/groups.rs:92-131 | after a full run a play carries a group exactly when it is in one run of starts with a play of the same item by somebody else with whom it shared two minutes |
| GroupTable.GroupIsTheLeastId | src/groups.rs:49-50 | the group is the least id of the grouped plays of that run, and one of them |
| GroupTable.OneGroupExactlyInOneRun | src/groups.rs:92-131 | two plays that carry a group carry the same one exactly when they are in one run |
| Travel.Scan | src/security.rs:118-186 | the loop finds exactly the findings defined over the history |
| Travel.LongestIsGreatest | src/security.rs:122-125 | `longest` always has the greatest end seen so far, the latest of equals |
| Travel.ReportedMeansImpossible | src/security.rs:129-146 | sound: what is reported is between two different places, far enough apart, with no time or too little between them |
| Travel.ImpossibleIsReported | src/security.rs:129-164 | complete for the previous and the longest sighting: when either overlaps or was left too fast, far enough away, the more impossible of them is added to the findings with the gap and the speed, unless its pair is muted or a travel finding of that pair less than a day old is among them; when neither is, no travel is added |
| Travel.AssessedExactly | src/security.rs:130-146 | one sighting is impossible after another exactly when the places differ, are far enough apart, and there was no time between or the speed is over the limit |
| Travel.NewCountriesExactly | src/security.rs:168-178 | a country is found exactly when it is known, no earlier sighting was there, and some earlier one was somewhere known; the finding counts the countries known before |
| Travel.ReportsAreADayApart | src/security.rs:150-152 | reports of one pair are at least a day apart |
| Travel.FindingsAreStable | src/security.rs:116-186 | the findings for a history are a prefix of those for any history that goes on from it |
| Travel.FindingsDoNotWait | src/security.rs:118-186 | what is found up to and including a sighting does not depend on when it ends, or on any later sighting and its end |
| Travel.ALaterEndCanTell | src/security.rs:129-146 | what is found at the sightings after it can: a first sighting that ends later can make the second one a finding |
| Travel.APlayThatWentOn | src/security.rs:129-146 | two plays ten hours and a thousand kilometres apart: nothing is found, until the first has gone on to when the second began |
| Travel.MutingRemovesThatPairOnly | src/security.rs:149-153 | muting a pair removes exactly that pair's travel findings and changes no other |
| Travel.PairsHaveNoDirection | src/security.rs:107-109 | a pair of places is the same pair either way round |
| Travel.PairsTellTheirPlaces | src/security.rs:107-109 | pairs of places whose names do not hold the bar are one pair exactly when they are the same two places |
| Travel.Alerts.File | src/security.rs:492-500 | filing is `INSERT OR IGNORE` finding by finding, and counts what went in |
| Travel.OneAlertExactly | src/security.rs:157-175 | two findings are one alert exactly when they are of one account and one sighting, or one account and one country |
| Travel.OnFileStays | src/security.rs:492-500 | what was on file stays as it is, and what is counted is what is added |
| Travel.FirstOfEachIsFiled | src/security.rs:492-500 | a finding is filed as it is when nothing on file and none filed before it is the same alert |
| Travel.RefilingAddsOnlyTheNew | src/security.rs:466-508 | scanning again after the history went on files only what the new sightings brought, and leaves the table one filing of everything would |
| Bursts.FindBursts | src/security.rs:281-302 | the windows per account find exactly the bursts defined over the history |
| Bursts.ABurstIsExactlyMin | src/security.rs:281-302 | each burst is exactly `min` failures of one account inside the window |
| Bursts.BurstsShareNothing | src/security.rs:294-299 | bursts of one account share no failure |
| Bursts.MinInsideAWindowIsABurst | src/security.rs:257-280 | complete: `min` failures of one account inside one window never pass without a burst of it being completed among them |
| Bursts.NothingIsForgotten | src/security.rs:281-302 | while no burst comes the window drops nothing that is inside it |
| Bursts.AppendingKeepsBursts | src/security.rs:281-302 | later failures never change earlier bursts |
| Bursts.RescanFindsTheSame | src/security.rs:279-302 | so bursts of a history that has grown are those found before, and then what is new |
| LookBack.FoundAfterTheCut | src/security.rs:306-315 | up to the first burst that straddles the cut, a scan that does not see what is before it finds the same; that burst it does not find |
| LookBack.LookBackFindsTheSame | src/security.rs:279-280 | failure by failure such a scan finds the bursts a scan of everything finds after the cut, if and only if none of them began before it |
| LookBack.StraddlingIsByTime | src/security.rs:261-264 | for a cut at a moment, that is to say by its own times |
| LookBack.ABurstCanBeFoundTwice | src/security.rs:279-280 | six failures of one account: with the first out of sight, the same failures complete another burst |
| Recent.Fold | src/recent.rs:80-102 | the early stop returns exactly the first `limit` groups of everything there is |
| Recent.GroupsAreTheKeys | src/recent.rs:84-96 | those groups are the keys in order of first appearance, each with every addition under it counted and its seasons listed once |
| Recent.OneEntryExactly | src/recent.rs:84-87 | two additions share an entry exactly when they are episodes of one series that came on one day, or one and the same item |
| Recent.NothingLaterJoins | src/recent.rs:78-79 | nothing after the stop could have joined a listed entry |
| Recent.NothingMoreToRead | src/recent.rs:97-99 | reading on after it changes nothing |
| Simplify.Simplified | tools/make-world-map.py:34-55 | the iterative algorithm terminates and keeps, in order, exactly what the recursive one keeps |
| Simplify.Mark | tools/make-world-map.py:38-54 | the stack always holds exactly the unfinished intervals between neighbouring kept points; at the end there are none |
| Simplify.FindFarthest | tools/make-world-map.py:46-51 | the inner loop finds the farthest point, the first of equals |
| Simplify.PickExactly | tools/make-world-map.py:55 | what is returned is the kept points, each at the place given by how many are kept before it |
| Simplify.SplitMeans | tools/make-world-map.py:52-54 | an interval is left alone exactly when all inside is within the tolerance, else split at the farthest |
| Simplify.NeighboursAreFinished | tools/make-world-map.py:34-55 | neighbours kept are never to be split further |
| Simplify.DroppedIsClose | tools/make-world-map.py:34-55 | with a tolerance that is not negative both ends are kept and every dropped point is within it of the chord of its kept neighbours |
| Simplify.DroppedAreWithinExactly | tools/make-world-map.py:46-52 | dropped points are within the tolerance if and only if it is not negative or nothing is dropped |
| Simplify.DroppedBeyondTheTolerance | tools/make-world-map.py:46-52 | the middle of three points on a line is dropped beyond a negative tolerance |
| Simplify.DroppedIsOnTheChord | tools/make-world-map.py:46-52 | whatever the tolerance, a dropped point is within it or at distance zero from the chord |
| Simplify.KeptIsNeeded | tools/make-world-map.py:47-54 | every inner point kept was the farthest of an interval between kept points, beyond the tolerance |
| Deliveries.NothingLeavesUnasked | src/notify.rs:508-562 | in every run each message sent is for an event some step raised as news, and for a destination that wanted it then |
| Deliveries.NothingTheOwnerMayNotSee | src/notify.rs:508-527 | so each message that leaves is of a kind its destination asks for, severe enough, about something since it has existed, and on a personal destination about its owner or what the owner was allowed to see |
| Deliveries.RaisedByAStep | src/notify.rs:553-560 | whatever row there ever was, a step of the run called for it |
| Notify.FiveFailuresEndIt | src/notify.rs:666-676 | failures that never ask for time end a row on the fifth, and not before |
| Notify.TheLadderTakes | src/notify.rs:668-676 | the retries of a row that only fails are 30, 120, 600 and 3600 seconds apart, 4350 in all, and the fifth failure ends it |
| Notify.AskedForIsGiven | src/notify.rs:735-736 | a destination that asks for a delay is left alone that long, up to an hour |
| Notify.RecordKeepsTheLadder | src/notify.rs:725-750 | each outcome keeps that ladder, and what stays queued is put off |
| Notify.WantedExactly | src/notify.rs:508-527 | who is told what, kind by kind: kinds, severities and ages asked for, and on a personal destination what its owner did or may see |
| Notify.NotAskedFor | src/notify.rs:735-736 | a Retry-After that is not positive is no answer, and what was accepted is over |
| Notify.PutOffToTheNextMinute | src/notify.rs:786-788 | what is put off is put off to the beginning of the next minute |
| Notify.SlotIsTheCount | src/notify.rs:752-765 | a destination is over its minute exactly when this process has sent it twenty in it |
| Notify.ChargeKeepsTheMinute | src/notify.rs:752-765 | a send under the cap keeps the slots in step with the whole history of messages and restarts |
| Notify.RestartKeepsTheMinute | src/notify.rs:811-812 | a new process starts with empty slots, and no destination is over its minute then |
| Deliveries.RaiseOnlyAdds | src/notify.rs:533-562 | an event changes no row and no history there is, and adds only its own rows, queued and called for |
| Deliveries.EverybodyWhoWantsItGetsIt | src/notify.rs:555-559 | a row is called for by everybody who wants the event |
| Deliveries.ARaiseReachesExactly | src/notify.rs:533-562 | an event brings in a row, due at once, for exactly the destinations entitled to it, if it happened within six hours and is not known yet, and nothing else |
| Deliveries.WrittenDownExactly | src/notify.rs:534-548 | an event is written down exactly when some destination in use asks for its kind and it is not known yet |
| Deliveries.TheFirstIsCalled | src/notify.rs:554-559 | of destinations that share a number the first that wants the event is the one it is called for |
| Deliveries.StepKeeps | src/notify.rs:531-822 | raising, fetching, sending, recording, deleting a destination, thinning old events and starting the process again all keep the invariant of the queue |
| Deliveries.RunKeeps | src/notify.rs:531-822 | and so does every run |
| Deliveries.RowsAreWanted | src/notify.rs:531-562 | in every run a row is there because its destination wanted its event and the event was news, one event stands for each thing that happened, and a row is given up exactly when the ladder says |
| Deliveries.NeverMoreThanTwentyAMinute | src/notify.rs:47-48 | in every run a destination is sent at most 20 messages of the queue in a minute of the clock for each process that ran in it |
| Deliveries.PutOffExactlyWhenFull | src/notify.rs:752-788 | in every run a message whose turn it is goes out exactly when this process has sent its destination fewer than twenty in this minute; else its row alone is put off to the beginning of the next |
| Deliveries.ARestartLetsOneMoreOut | src/notify.rs:811-812 | however many a destination was sent in this minute, after a restart in it the next due row goes out in it as well |
| Capped.TwentyForEachProcess | src/notify.rs:752-765 | no smaller bound holds: for any number of restarts there is a run with that many in one minute in which a destination is sent twenty for each process |
| Deliveries.ToldAtMostOnce | src/notify.rs:725-732 | in every run an event accepted by a destination is not sent to it again, unless a restart came between sending and recording |
| Deliveries.CutShortIsSentAgain | src/notify.rs:790-803 | and then it is, whatever was answered, if its row and destination are still there |
| Deliveries.NeverBack | src/notify.rs:725-750 | a row only moves from queued to sent or failed; being put off or cut short costs no attempt |
| Deliveries.DeletingExactly | src/notify.rs:780-784 | a destination that is deleted takes its rows with it, and nothing else |
| Deliveries.ThinningExactly | src/notify.rs:815-821 | thinning out takes the events written down before a moment, and their rows, and nothing else |
| Deliveries.GoneForGood | src/notify.rs:553-554 | a row that is gone never comes back |
| Deliveries.ClosedForGood | src/notify.rs:725-750 | in every run a row sent or given up stays as it is |
| Drain.TakeDue | src/notify.rs:685-718 | the first twenty due rows, in order |
| Drain.TheLongestDueAreTaken | src/notify.rs:685-690 | what is read is at most twenty rows, each queued and due, the longest due first; what is due and not read comes after a full twenty |
| Drain.Queue.Send | src/notify.rs:778-804 | one message is one send and its recording in the queue's relation |
| Drain.Queue.Pass | src/notify.rs:778-804 | one pass keeps the queue's invariant, leaves nothing of its batch due, and leaves every other row of a living destination alone |
| Drain.Queue.Drain | src/notify.rs:767-807 | terminates at a fixed clock; whatever known kind is still due has twenty due rows of unknown kinds before it; when no destination was deleted, a due row of a known kind is left over if and only if it had them at the start |
| Drain.FewUnknownStarveNothing | src/notify.rs:716-717 | with fewer than twenty due rows of unknown kinds nothing is left over |
| Drain.ARowCanStarve | src/notify.rs:716-717 | after a run of twenty-one events, the last alone of a known kind, its row is due before the loop and after it |
| Restore.Database.Restore | src/backup.rs:217-338 | goes through or changes nothing, says what is wrong with the first line that stops it (with its number when it is not JSON), and otherwise leaves the merged and linked tables with the counts of what went in |
| Restore.Database.Link | src/relink.rs:110-181 | item by item, the plays of each orphan are moved or its name cleaned, all from the names looked up first |
| Merging.TimelinesFollowTheirPlays | src/backup.rs:276-289 | each newly inserted play receives exactly the timeline rows that named its old id, in order and under its new id; plays already there gain none |
| Merging.APlayThatCameIn | src/backup.rs:272-280 | a play that was not there comes in under its new id, with its own columns and not playing |
| Merging.NothingElseCameIn | src/backup.rs:276-278 | only such plays get a new id |
| Merging.MergingOverwritesNothing | src/backup.rs:259-310 | of the merge alone: what was there stays as it was (permissions aside, when they are restored), and each count is of what went in, a permission row counting whenever it is restored; what was there can be moved or renamed only by the linking that follows |
| Merging.PresentExactly | src/backup.rs:262-267 | a play with an import id is there when one with that id is, one without when one by the same user, of the same item and with the same start is |
| Merging.RefusedExactly | src/backup.rs:262-296 | what the database refuses: a play that is not there and lacks a part of its key or does not fit, a timeline row of a play that came in, and permissions when asked for, that do not |
| Merging.FirstFaultDecides | src/backup.rs:241-256 | the first line that cannot be read, is not JSON, or as the first of JSON is no header of a known version, is what is said to be wrong |
| Merging.RowsAreOfTheLines | src/backup.rs:241-258 | the rows of a file are those of its lines of JSON but for the first |
| Merging.TwinExactly | src/backup.rs:262-270 | a play is not told apart from an earlier one exactly when it has no import id and that one has its user, item and start |
| Restore.WhatWasThereStays | src/backup.rs:15-16 | of a restore as a whole, linking included: timelines, keyed rows and every column of a play that was there stay, but that a play whose item is not there can be moved to a live item or have its name cleaned |
| Merging.MergeKeepsValid | src/backup.rs:259-310 | merging keeps ids increasing, import ids unique and timelines attached, and only adds plays |
| Merging.AllOfItIsThere | src/backup.rs:259-310 | after a merge every play of the file, and every row of the tables that are only added to, is there |
| Merging.PermsAreTheFiles | src/backup.rs:290-294 | and the permissions are those of the file, the last row for each user, over those there were |
| Restore.MergingAgain | src/backup.rs:15-16 | merging the same file again goes through and changes nothing if and only if no play without an import id names an item the first linking moved |
| Restore.RestoringTwice | src/backup.rs:15-16 | restoring it again, linking included, goes through and changes nothing if and only if in addition no title is stirred by linking twice |
| Restore.RestoringTwiceIsSafe | src/backup.rs:15-16 | which is so when no such play was moved and every title neither live nor remembered goes by one name |
| Linking.LinkingTwice | src/relink.rs:110-181 | a second linking changes nothing if and only if no title that was not found comes to be looked up by another name that is found or to be cleaned |
| Linking.OneNameEach | src/relink.rs:110-140 | so when every title neither live nor remembered goes by one name, linking twice is linking once |
| Linking.CleanedIsNotFound | src/relink.rs:72-101 | a name that was not found is not found when cleaned |
| Linking.FoundExactly | src/relink.rs:72-101 | the first provider id of the name that means one item decides, and if none does the name without its tags |
| Linking.GreatestName | src/relink.rs:114-118 | a title that is not remembered is looked up by the greatest of the names of its plays |
| Linking.WhatBecomesOfAPlay | src/relink.rs:110-181 | what becomes of each play, exactly: left alone while its item is there, moved to what its name finds, or, a title, cleaned of tags when it is called by the name looked up |
| Linking.WhereItIs | src/relink.rs:121-132 | after a linking a play is of the item it was of, or of a live one |
| Linking.LinkingAgainCanMove | src/relink.rs:114-138 | two plays of one title under two names, moved by the second linking only |
| Restore.RestoringTwiceCanDouble | src/backup.rs:15-16 | a play of an item that was moved comes in a second time |
| Restore.RestoringTwiceCanMove | src/backup.rs:15-16 | and a second restore can move plays though the first moved none |
| Merging.ThereAndBack | src/backup.rs:39-41 | a backup merged into an empty database, without the linking: every play comes in, with its own timeline, if and only if no play without an import id has an earlier twin; the other tables come back as they were |
| Restore.ABackupComesBack | src/backup.rs:1-13 | a backup restored into an empty database, the linking included: every play comes back if and only if no play without an import id has an earlier twin; then each has its user, item, start, import id, other columns and timeline, and its name if and only if it is not retitled; the other tables come back as they were |
| Restore.ANameCanBeCleaned | src/relink.rs:133-138 | a backup of one film called "[tmdbid-9] Alpha" comes back with it called "Alpha" |
| Restore.ATwinIsLost | src/backup.rs:262-270 | of two plays without an import id, by one user, of one item and with one start, one is lost |
| Merging.AFileReadsBack | src/backup.rs:117-138 | the lines of an exported file read back as its rows, without fault |
| Relink.ParseName | src/relink.rs:28-53 | the scan terminates for any nesting of brackets and takes out exactly the recognised tags |
| Relink.ScanExactly | src/relink.rs:33-52 | what stands between the first opening bracket and the next closing one goes if it is a tag and else stays, what is before them stays, and what is after is scanned in turn |
| Relink.NothingLeftToScan | src/relink.rs:35-36 | without an opening bracket, or a closing one after it, all of it stays |
| Relink.TagExactly | src/relink.rs:38-47 | a tag is a key that one of three providers goes by, up to the first `-` or `=`, and something after it, both trimmed |
| Relink.TrimExactly | src/relink.rs:39-46 | what is trimmed off is the blanks at both ends and no more |
| Relink.BlanksAreWhiteSpace | src/relink.rs:53 | the blanks are the 25 code points of Unicode's white space |
| Relink.LowerExactly | src/relink.rs:39 | only ASCII letters have a lower case |
| Relink.CleaningTwice | src/relink.rs:18-53 | a cleaned name is cleaned to itself, and no provider id is found in it |
| Relink.NoTagIsLeft | src/relink.rs:33-52 | what a scan leaves has no recognised tag, though text on both sides of a removed one meets |
| Relink.CollapsingMakesNoTag | src/relink.rs:53 | as many tags are found after collapsing the blanks as before: none is made and none broken |
| Relink.OrdinaryNamesAreLeftAlone | src/relink.rs:28-53 | a name without recognised tags only has its blanks collapsed |
| Relink.NormIsJoin | src/relink.rs:53 | collapsing character by character is splitting into words and joining them |
| Relink.ATagInsideABracketStays | src/relink.rs:33-52 | the text of a tag stays when it stands inside another bracket |
| Streaks.LongestRun | src/recap.rs:446-463 | a run wholly inside the set, which no run in the set exceeds, the earliest of equals |
| Streaks.Current | src/profile.rs:36-43 | the streak ending today or else yesterday, every day of it there and the day before it not |
| Streaks.LongestAndCurrent | src/profile.rs:35-43 | the current streak is never longer than the longest, and no run reaching today or yesterday is longer than it |

## Left out

- Loop: the socket itself is the environment (it may push, subscribe, come up or go down at any step), and the connection and subscription bits of the picture are whatever the wire says; just after the socket comes back, before the next reading, nothing is claimed of the picture.
- Loop: one loop and one gate; other callers of the gate appear as reads at any moment. `async` scheduling inside a step is not modelled.
- Loop: `poll_interval_s` and the back-off of the beat. A poll read may come at any time here, which allows more runs than the code has.
- Tracking.Choose: which of several resumable rows that ended in the same second is continued is left open, as `ORDER BY ended_at DESC LIMIT 1` leaves it.
- Tracking: seek, track and transcode events (`diff_events`) appear only as "something changed"; counters and stream columns are not modelled, nor are `mark_live`, the Jellystat import and a restore in the middle of a run, which write to the same table.
- Fuzzy: `normalize`, `word_score` and `Query::score`, which rank what `within` accepts.
- Travel: places, labels and the trigonometry of `distance_km`, which is an arbitrary number per pair of sightings; alerts of older history being filed as resolved.
- LookBack: the cut falls between two failures of the history; that it moves on from scan to scan is covered by any cut being allowed.
- Recent: the JSON of an entry.
- Simplify: projection, area and path output; the distance from a chord is an arbitrary number, not negative where a contract says so.
- Notify: message text, channels and settings limits; the outcome of a send is the environment's. A destination that always sends Retry-After is tried without end, as in the code.
- Deliveries.NeverMoreThanTwentyAMinute: the Test button sends past the queue, its rows and its cap (src/notify.rs:1256), and is not modelled.
- Drain: rows of one event due at the same second are taken in order of destination, where the query leaves that order open. The clock stands still during the loop; with a moving clock the same steps are covered by the runs of `Deliveries`.
- Restore: settings and permissions text, home addresses (which a restore rewrites from the settings afterwards), `group_id` (worked out again, see `GroupTable`), and the columns `backfill_playbacks` fills in. An import id is text, as it is in every exported file; a server-log row has its id.
- Linking: what a provider id or a cleaned name can only mean for an item is a function of the library that only answers with live items; `find_current`'s query for exactly one hit, and the series, season and number of an episode, are inside it. Other columns a move rewrites are not modelled.
- Relink: the trailing year. Case folding is ASCII only, as in the code.
- SQL as a language, HTTP, the web interface, the clients of other services, geolocation files and e-mail.
