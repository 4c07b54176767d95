# Verified models of IOLake's tools

IOLake is an object store. The programs modelled here stand around its storage
engine and decide things about it: the harness that says whether a store under
faults lost data, the installer that forms the Raft group and plans a host, the
clients that sign requests and read metrics, and the upgrade that renames a
host's settings. Each module models one of them in Dafny and proves what its
comments, tests and documentation promise, for every input or every run; where
a promise fails for some inputs, the model gives the input and the exact
condition under which it holds.

| file | models |
|---|---|
| `SoakOracle.dfy`, `SoakCheck.dfy` | the soak's concurrent writers and the outcomes they allow each key, as steps of a state machine and as a class that refines it; the checks that read keys and the listing against them |
| `WriteGap.dfy`, `RecoveryStall.dfy`, `RepairQuiet.dfy` | the three detectors fed by samples: longest write gap, stuck recovery, quiet repair |
| `GroupFormation.dfy` | `cluster init`, cut off anywhere and run again |
| `PortPlan.dfy` | the services and ports planned for a host |
| `RenameVars.dfy`, `EnvFile.dfy`, `SystemdQuoting.dfy` | the upgrade's renames and additions, and command lines as systemd reads them |
| `Exposition.dfy`, `Quantile.dfy` | the console's Prometheus text parser, histogram quantile and live latency |
| `SigV4.dfy`, `Utf8.dfy` | canonical paths and queries, and their decoders |
| `Calendar.dfy` | UTC dates from a day count |
| `Dedup.dfy` | the deduplication estimate |
| `Sorting.dfy`, `Basics.dfy` | what they share |

`dafny verify dfyconfig.toml` checks them all.

## What the environment is taken to do

- Soak: a key has one writer, with one operation in flight. A 2xx answer means
  the operation took effect; one that fails or times out takes effect before its
  answer or never. Writers' steps and the store's interleave in any order.
- Detectors: each thread's clock does not go back. Counters of repair passes and
  rebuilt shards do not decrease; passes do not overlap.
- Group formation: one installer at a time. `/init` on a node that has a group
  answers 409. A call may be refused, or its answer lost after it took effect.
- systemd: a line ends at a newline; other white space but the blank may end one
  too, and every statement holds whichever does. Which program paths it refuses is
  a parameter.
- Metrics: numbers are reals; the number of each sample printed is taken to read back
  from its own text.
- Deduplication: the content-defined cutter tiles every body; a fingerprint is
  any function, injective only where a statement says so.

## Where a promise does not hold as stated

- `check_one` calls a key wrong after three wrong reads running; a good key is
  called wrong when two overwrites land in each of its rounds
  (`SoakCheck.SixCanFoolTheCheck`), and with fewer never
  (`SoakCheck.FalseAlarmNeedsSix`).
- A report of the write gap can overstate: an acknowledgement or a report handled
  before an earlier acknowledgement is measured from an older `last_ok`, across the
  earlier one (`WriteGap.LateProcessingOverstates`,
  `WriteGap.LateAfterReportOverstates`). It never understates. No stretch is made
  up exactly when no acknowledgement, at an instant of its own, is handled after an
  event later than it (`WriteGap.TrueExactlyInOrder`).
- `cluster init` is documented as safe to run again. With a group formed, a run
  starts a second one exactly when the first node it names is in none, every node
  answers and its `/init` lands (`GroupFormation.InitCluster`,
  `GroupFormation.InitAgainAndAgain`); two such runs are
  `GroupFormation.AnotherFirstStartsAnotherGroup`.
- `rename_vars` renames the second of two back-to-back `OBJECTIO_`, which is not
  at the start of a name; it does what it says exactly when there are none
  (`RenameVars.RenamesAsIntended`).
- A label value with a newline is read back with the two characters `\n`, and
  only such a one is (`Exposition.RoundTrip`). A timestamp after the value, which
  the format allows, is taken for the value (`Exposition.StampIsTheValue`).
- The dashboard promises percentiles only of a histogram whose counts rise. Its
  guard looks at the histogram the percentiles are taken from exactly when each
  bound is a number spelt one way, none is gone since the earlier scrape and none
  was counted under another spelling (`Quantile.Increases`); where one is gone, it
  can pass counts that fall (`Quantile.GoneBoundPasses`).
- `exec_start` has systemd run its program and arguments exactly when none holds
  a line break, none is a lone `;`, and the program starts with no special prefix,
  holds no `$` and is no path systemd refuses
  (`SystemdQuoting.CommandLineRoundTrip`).
- A carried-over value that ends in a carriage return is read back without it, and
  only such a one changes (`EnvFile.ValueSurvives`). Of the lines that were there,
  only a last one that sets a variable and ends in a bare carriage return is read
  differently afterwards (`EnvFile.OldValuesSurvive`).
- The order of chunks changes the totals of the deduplication estimate exactly
  when two of them, not all zero, share a fingerprint and differ in length
  (`Dedup.AnyOrderExactlyWhen`).
- In the port plan 0 is "no port" for every service, though its comment speaks of
  metrics ports: two services given port 0 pass (`PortPlan.TwoOnZeroPass`). A plan
  gives each service a port of its own exactly when at most one was given 0
  (`PortPlan.ListenersApartExactlyWhen`).

## Model

| member | source | states |
|---|---|---|
| `SoakOracle.StepKeeps` | deploy/chaos/soak.py:105-152 | every step of any writer or of the store keeps the oracle's invariant: stored outcomes allowed, unlisted keys absent, each writer's list complete |
| `SoakOracle.RunKeeps` | deploy/chaos/soak.py:105-152 | so does every run, whatever interleaving |
| `SoakOracle.OracleIsSound` | deploy/chaos/soak.py:105-152 | after any run from the start, each key's stored outcome is among those allowed, a key not yet known does not exist, and a writer between operations lists, once each, exactly its keys that may exist |
| `SoakOracle.EveryAllowedIsPossible` | deploy/chaos/soak.py:105-152 | and no outcome is allowed that could not be: for each there is a run the threads cannot tell from this one, the same but for which requests the store carried out and when, that leaves it stored |
| `SoakOracle.AllowedExactlyWhenPossible` | deploy/chaos/soak.py:105-152 | so after any run an outcome of a key is possible, for all the threads have seen, if and only if it is allowed and fits an acknowledgement the oracle has yet to record |
| `SoakOracle.TouchedIsSettled` | deploy/chaos/soak.py:126-145 | the keys a check takes are exactly those whose operations ended, well or not, since it last took them |
| `SoakOracle.Harness.constructor` | deploy/chaos/soak.py:105-109 | the harness starts in the machine's initial state |
| `SoakOracle.Harness.StartPut` | deploy/chaos/soak.py:128-136 | widening for a new key is the machine's put step and keeps the invariant |
| `SoakOracle.Harness.StartOverwrite` | deploy/chaos/soak.py:128-136 | widening for an overwrite is the machine's overwrite step and keeps the invariant |
| `SoakOracle.Harness.StartDelete` | deploy/chaos/soak.py:115-120 | taking a key off the list and allowing it gone is the machine's delete step and keeps the invariant |
| `SoakOracle.Harness.FinishOperation` | deploy/chaos/soak.py:121-150 | narrowing after an acknowledgement, or not after a failure, is the machine's settle step and keeps the invariant |
| `SoakOracle.Harness.TakeChanged` | deploy/chaos/soak.py:403-411 | a check takes the changed keys and clears them, which is the machine's step and keeps the invariant |
| `SoakCheck.CheckOne` | deploy/chaos/soak.py:387-400 | a key is reported exactly when each of the three readings failed, or showed an outcome neither in the last look before it nor in the one after; the last reading is what is reported |
| `SoakCheck.WrongReadingNeedsTwo` | deploy/chaos/soak.py:392-399 | on a store the invariant holds of, one wrong-looking reading takes two operations on the key started in that window |
| `SoakCheck.FalseAlarmNeedsSix` | deploy/chaos/soak.py:387-400 | so a false report takes two in each window, six in all |
| `SoakCheck.StillKeysAreJudgedRight` | deploy/chaos/soak.py:387-400 | with nothing in flight or started on a key, it is reported exactly when what is stored is not allowed, whatever the store did before |
| `SoakCheck.FoolsEveryRound` | deploy/chaos/soak.py:387-400 | two overwrites a round, each with the key's next body, have a good key reported after any number of rounds |
| `SoakCheck.SixCanFoolTheCheck` | deploy/chaos/soak.py:387-400 | six do for the check's three rounds, so the bound is reached |
| `SoakCheck.SettledIsReachable` | deploy/chaos/soak.py:105-152 | the state they start from is one a run reaches |
| `SoakCheck.PassesExactly` | deploy/chaos/soak.py:484-493 | a listing passes exactly when every key in it may be there and every key not in it may be gone |
| `SoakCheck.ListingPasses` | deploy/chaos/soak.py:484-493 | while the invariant holds, the listing of what is stored passes |
| `SoakCheck.OnlyThatListingPasses` | deploy/chaos/soak.py:484-493 | with each key's outcome known, no other listing does |
| `WriteGap.GapTracker.Acknowledge` | deploy/chaos/soak.py:89-95 | the tracker's fields are those the whole history of acknowledgements and reports gives |
| `WriteGap.GapTracker.PhaseReport` | deploy/chaos/soak.py:155-169 | it reports the longest of the gaps closed since the last report and the one still open, and fails exactly when that is over the limit |
| `WriteGap.PhaseStartsAnew` | deploy/chaos/soak.py:155-163 | after a report the gap is that of a new history, begun at the last acknowledgement: nothing of the phases before stays |
| `WriteGap.GapIsTheLargestStep` | deploy/chaos/soak.py:89-95 | within a phase it is the largest step from one acknowledgement handled to the next |
| `WriteGap.StretchIsKept` | deploy/chaos/chaos.py:180-183 | in whatever order acknowledgements are handled, no silent stretch between two is missing from the reports and the gap being kept, across resets |
| `WriteGap.EveryStretchIsReported` | deploy/chaos/chaos.py:171-206 | so after a report the longest reported gap is at least every true one |
| `WriteGap.OpenStretchIsReported` | deploy/chaos/chaos.py:193-199 | and a report counts the time since the last acknowledgement |
| `WriteGap.TrueExactlyInOrder` | deploy/chaos/chaos.py:180-199 | over every history of acknowledgements at different instants, no stretch measured, up to an acknowledgement or up to a report, spans another acknowledgement of the whole history if and only if none is handled after an event later than it |
| `WriteGap.TiesMayBeLate` | deploy/chaos/chaos.py:180-183 | why different instants: one of two at the same instant may be late and nothing be made up |
| `WriteGap.GapIsAStretch` | deploy/chaos/chaos.py:180-183 | with no stretch made up, the kept gap is a true silent one that ended in this phase |
| `WriteGap.ReportedIsAStretch` | deploy/chaos/chaos.py:193-199 | then every gap reported is a stretch in which nothing of the whole history was acknowledged, and that ended with the report or at an acknowledgement handled after the report before it |
| `WriteGap.LongestIsAStretch` | deploy/chaos/chaos.py:193-206 | and so is the longest of all reports |
| `WriteGap.LateProcessingOverstates` | deploy/chaos/chaos.py:178-183 | out of order, a run with no silence over 8 s is reported as 10 s |
| `WriteGap.LateAfterReportOverstates` | deploy/chaos/soak.py:155-158 | handled after the report, a write at 5 s leaves 10 s reported where no stretch was over 5 |
| `RecoveryStall.PoolWatch.Turn` | deploy/chaos/soak.py:311-340 | the watch fails the run exactly when some placement group is not Clean, no sample since all were last Clean made progress within the limit, and no OSD was down within it |
| `RecoveryStall.KeepsTheUnclean` | deploy/chaos/soak.py:313 | the groups looked at are those not Clean, each as often as it is listed |
| `RecoveryStall.KeptExactly` | deploy/chaos/soak.py:313-314 | there are some exactly when some group is not Clean |
| `RecoveryStall.DegradedAdds` | deploy/chaos/soak.py:322 | the objects degraded are the sum over those groups |
| `RecoveryStall.EpisodeBeginsAnew` | deploy/chaos/soak.py:314-319 | what was seen before a poll that found all Clean counts for nothing after it |
| `RecoveryStall.EpisodeGoesOn` | deploy/chaos/soak.py:309-322 | without such a poll the samples of two stretches of history are those of the first and then those of the second |
| `RecoveryStall.EpisodeOfOne` | deploy/chaos/soak.py:309-325 | a poll adds a sample exactly when some group is not Clean: the objects degraded in such groups |
| `RecoveryStall.PoolWatch.SawOsdsDown` | deploy/chaos/soak.py:359-360 | the time of the latest OSD down is kept |
| `RecoveryStall.MarkStep` | deploy/chaos/soak.py:325-330 | the test against the mark agrees with progress defined over the whole episode |
| `RecoveryStall.JudgedRight` | deploy/chaos/soak.py:325-333 | the new mark, and the stall it implies, are right for the longer episode |
| `RecoveryStall.OutOfCleanTurn` | deploy/chaos/soak.py:319-333 | so is what a poll of a pool out of Clean makes of them, over the whole history |
| `RecoveryStall.SinceLastProgress` | deploy/chaos/soak.py:331-333 | nothing moved for a time exactly when the last progress is older |
| `RecoveryStall.MarkIsDetermined` | deploy/chaos/soak.py:278-280 | the fewest degraded, the latest recovered and the time of the last progress fix the mark |
| `RepairQuiet.AwaitRepairQuiet` | deploy/chaos/chaos.py:496-511 | it returns true exactly when, of the polls answered from some change of the work on, two show the same work throughout and two passes more; with counters that do not fall, exactly when any two polls do |
| `RepairQuiet.PollsAreCumulative` | deploy/chaos/chaos.py:480-493 | the counters polled do not fall |
| `RepairQuiet.FindPass` | deploy/chaos/chaos.py:507-508 | two more passes, counted at their start or at their end, hold a whole one |
| `RepairQuiet.QuietMeansAnIdlePass` | deploy/chaos/chaos.py:496-511 | a true answer means a whole pass began and ended between the two polls and nothing was rebuilt in between |
| `RepairQuiet.IdlePassesAreSeen` | deploy/chaos/chaos.py:496-511 | two idle passes between two answered polls are always enough for a true answer |
| `GroupFormation.SendKeeps` | bin/install/src/cluster.rs:192-246 | a proper request, answered, refused or with its answer lost, removes no voter and no member; a group more is started exactly by an `/init` that lands at a node without one |
| `GroupFormation.InitCluster` | bin/install/src/cluster.rs:147-255 | one run, cut off anywhere, removes no voter, adds only nodes named, and posts `/change-membership` only with distinct ids that hold every voter, each new one a learner by then; it starts a group exactly when all answer, the first node is in none and `/init` lands, and one group stays one exactly unless that happens; it says the group is formed exactly when every call was answered, each node has an address and an id of its own, and the leader is a voter among the nodes named whose voters all are, and then the leader shows exactly those nodes as voters; run through on one group it makes the voters exactly the nodes named, and where they are already it posts nothing |
| `GroupFormation.Gather` | bin/install/src/cluster.rs:171-190 | it goes on exactly when every node answers with an address and an id of its own, with those ids sorted |
| `GroupFormation.WildcardsAreNone` | bin/install/src/cluster.rs:174 | an address is refused exactly when it is a wildcard, with whatever port |
| `GroupFormation.StartGroup` | bin/install/src/cluster.rs:192-199 | a first node that shows voters is left alone; else `/init` is posted there, a group is started exactly when it lands, and the run goes on exactly when it was answered |
| `GroupFormation.JoinLeader` | bin/install/src/cluster.rs:201-255 | of the nodes named the one with the id of the leader is joined at; the run succeeds exactly when there is one, it votes, all its voters are named and each call is answered |
| `GroupFormation.AddLearners` | bin/install/src/cluster.rs:229-238 | the voters are as before, and it succeeds exactly when each request was answered and, if there was one, it went to a voter; then every node that is not a voter is a learner |
| `GroupFormation.MakeVoters` | bin/install/src/cluster.rs:229-245 | learners first, then the ids; it succeeds exactly when each request was answered and the leader is a voter, and then the voters are the ids |
| `GroupFormation.JoinAll` | bin/install/src/cluster.rs:218-247 | it succeeds exactly when each call was answered and the leader, a voter, shows only voters named; then its voters are exactly the ids, and nothing is posted when they were already |
| `GroupFormation.SortedAlike` | bin/install/src/cluster.rs:219-226 | comparing the sorted lists tells whether they hold the same ids |
| `GroupFormation.InitAgainAndAgain` | bin/install/src/cluster.rs:183-246 | over any sequence of runs, each cut off after any call, no voter is removed, every request is proper and every member is a node some run named; at most one group is ever started if and only if no run that found one named first a node outside it and reached it with `/init`, as when all name the same node first |
| `GroupFormation.InitConverges` | bin/install/src/cluster.rs:192-246 | if they left at most one group, one whole run that names a member first, or starts the group, and every node named before, makes the voters exactly the nodes named, and the next posts nothing |
| `GroupFormation.AnotherFirstStartsAnotherGroup` | bin/install/src/cluster.rs:192-193 | a run on two nodes cut off after its `/init`, and a second run on the same two in the other order, leave two groups |
| `PortPlan.OsdPort` | bin/install/src/config.rs:131-136 | OSD `i` gets the base plus `2i`, or nothing past 65535: no sum wraps |
| `PortPlan.FindShared` | bin/install/src/config.rs:337-342 | sorting and comparing neighbours finds a shared port whenever there is one, and names the first two, by label, of the users of the least |
| `PortPlan.LabelsInOrder` | bin/install/src/config.rs:339 | of two labels the one with the smaller character where they first differ comes first |
| `PortPlan.PlanOsds` | bin/install/src/config.rs:269-305 | each disk gets an OSD on its own pair of ports, or the first OSD past the end is refused |
| `PortPlan.Judge` | bin/install/src/config.rs:337-347 | with all ports in range the plan stands exactly when no non-zero port is taken twice |
| `PortPlan.Plan` | bin/install/src/config.rs:215-348 | a plan is made exactly when the inputs are valid, every port is in range and no two services take one port; each refusal is given exactly where it is due, the clash for the least shared port and its first two users |
| `PortPlan.ServicesAre` | bin/install/src/config.rs:222-335 | the services planned are, each once, the metadata service with its three ports, an OSD on its pair of ports for each disk, and the gateway; the last two are given the metadata address named, or where none is this host's own |
| `PortPlan.UsesAreTaken` | bin/install/src/config.rs:259-335 | the list of ports holds each service's once |
| `PortPlan.PortsAreRightExactlyWhen` | bin/install/src/config.rs:119-150 | in arithmetic: the last OSD fits, fixed ports differ and miss the OSDs' ranges by bound or parity, and the two ranges miss each other |
| `PortPlan.ListenersApartExactlyWhen` | bin/install/src/config.rs:337-338 | a plan that passes gives every service but metrics a port of its own, 0 counted, if and only if at most one of them was given 0 |
| `PortPlan.TwoOnZeroPass` | bin/install/src/config.rs:337-338 | meta and the gateway both given 0 pass |
| `RenameVars.Rename` | bin/install/src/upgrade.rs:194-205 | the loop computes the left-to-right scan |
| `RenameVars.RenamesAsIntended` | bin/install/src/upgrade.rs:193-205 | the result is the text with exactly the names at the start or after a space or quote renamed if and only if no two old prefixes stand back to back |
| `RenameVars.ScanTwice` | bin/install/src/upgrade.rs:194-205 | scanning what was scanned changes nothing, from any preceding character |
| `RenameVars.RenamingTwiceIsOnce` | bin/install/src/upgrade.rs:194-205 | a second upgrade changes nothing, for every value |
| `EnvFile.AddNewVars` | bin/install/src/upgrade.rs:209-258 | the loop adds a line for each old name that lacks its new one, once, after the file's text |
| `EnvFile.LineSets` | bin/install/src/upgrade.rs:212-217 | a line sets the name before its first `=`, with or without `export ` before it, to all that is after; white space before it and around the name does not count |
| `EnvFile.SetsNothing` | bin/install/src/upgrade.rs:212-217 | a line sets nothing exactly when it has no `=` |
| `EnvFile.AddedInOrder` | bin/install/src/upgrade.rs:224-236 | the new names are in the order in which the old ones first occur |
| `EnvFile.NoticeComesFirst` | bin/install/src/upgrade.rs:246-254 | after the old text and the newline it may lack there are three lines of comment, and then the new lines |
| `EnvFile.UpgradedReads` | bin/install/src/upgrade.rs:238-254 | the new file reads as the old one followed by the new lines; the notice sets nothing |
| `EnvFile.NamesAreAdded` | bin/install/src/upgrade.rs:219-254 | the old text is a prefix of the new, the names read are the old ones then the new ones, each new name once and none defined before, so nothing is shadowed |
| `EnvFile.EveryOldNameHasItsNew` | bin/install/src/upgrade.rs:207-236 | every `OBJECTIO_X` read then has an `IOLAKE_X` |
| `EnvFile.ValuesAreCarried` | bin/install/src/upgrade.rs:226-236 | an added name is read with the first value of the old one, less a final carriage return |
| `EnvFile.ValueSurvives` | bin/install/src/upgrade.rs:234 | the value is unchanged if and only if it ends in no carriage return |
| `EnvFile.UpgradingTwiceIsOnce` | bin/install/src/upgrade.rs:230-240 | a second run adds nothing and leaves the file as it is |
| `EnvFile.GapKeeps` | bin/install/src/upgrade.rs:246-249 | ending the last line changes no name, and no value if and only if that line does not set one ending in a bare carriage return |
| `EnvFile.OldValuesSurvive` | bin/install/src/upgrade.rs:241-254 | so the lines that were there are read as before if and only if the file does not end so |
| `SystemdQuoting.ChainIsPerCharacter` | bin/install/src/systemd.rs:15-19 | the four replacements one after another are one replacement of each character |
| `SystemdQuoting.QuotedExactlyWhen` | bin/install/src/systemd.rs:11-28 | quotes are put around exactly the arguments that are empty or hold white space or a quote |
| `SystemdQuoting.ArgumentIsReadBack` | bin/install/src/systemd.rs:11-29 | the specifiers and variables left in a word are the argument's own characters |
| `SystemdQuoting.LineIsRead` | bin/install/src/systemd.rs:32-34 | systemd's word rules split the line into the arguments' words |
| `SystemdQuoting.LineEnds` | bin/install/src/systemd.rs:14-34 | no line ends in a backslash that would join it to the next |
| `SystemdQuoting.RunsAreMeant` | bin/install/src/systemd.rs:32-34 | the words read are one command with this program and these arguments if and only if none is a lone `;` and the program has no prefix, no `$` and is not refused |
| `SystemdQuoting.BrokenLine` | bin/install/src/systemd.rs:14-34 | an argument with a line break leaves a line systemd cannot split |
| `SystemdQuoting.CommandLineRoundTrip` | bin/install/src/systemd.rs:14-34 | systemd runs the program and arguments given, as one command, if and only if no argument holds a line break or is a lone `;` and the program starts with no special prefix, holds no `$` and is no path systemd refuses |
| `Exposition.ReadLabels` | console/src/api/exposition.ts:36-40 | the loop finds the labels the expression matches, the last of a name winning |
| `Exposition.PartsAreTheLine` | console/src/api/exposition.ts:25-41 | a line gives a sample exactly when it is no comment and a number follows its last space: the number, the name up to the first `{` before it, and the text between that and the last `}` |
| `Exposition.PartsAreUnique` | console/src/api/exposition.ts:25-41 | a line says only one thing |
| `Exposition.Parse` | console/src/api/exposition.ts:22-44 | the samples of the lines, in order, as the next rows say |
| `Exposition.TextIsReadByLines` | console/src/api/exposition.ts:23-43 | of any text: what is read of two texts with a newline between them is what is read of the one and then of the other; a line gives its own sample or none |
| `Exposition.LabelsAreLeftmost` | console/src/api/exposition.ts:37-40 | of any text between braces: its labels are the leftmost, its body unescaped, and those of what is after it, which win over it |
| `Exposition.ScanIsTheExpression` | console/src/api/exposition.ts:37-38 | the scan matches at a place exactly what the regular expression does: a name, `="`, a body that is as long as it can be, `"` |
| `Exposition.TwoPassesAreOne` | console/src/api/exposition.ts:39 | on every body the expression matches, the two replacements in turn equal one pass over the escapes |
| `Exposition.LabelsAreReadBack` | console/src/api/exposition.ts:36-40 | printed labels are read back, whatever quotes, backslashes, braces, commas or `x="` their values hold |
| `Exposition.LineIsReadBack` | console/src/api/exposition.ts:25-41 | a printed sample is read back from its line |
| `Exposition.TextIsReadBack` | console/src/api/exposition.ts:22-44 | and from a whole text of samples, comments and empty lines |
| `Exposition.RoundTrip` | console/src/api/exposition.ts:22-44 | what is read is what was printed if and only if no label value holds a newline |
| `Exposition.StampIsTheValue` | console/src/api/exposition.ts:27-32 | on a line with a timestamp, that is the value read, and a bare name takes in the value |
| `Quantile.GroupSum` | console/src/api/exposition.ts:60-73 | the map has a sum for each `le` that occurs and no other, and it is the sum of its samples |
| `Quantile.Add` | console/src/api/exposition.ts:122-133 | each bound gains, or loses, the sum of the samples that read as it |
| `Quantile.TotalsAdd` | console/src/api/exposition.ts:67-73 | both sums are sums: a sample counts where its name and its `le` match, and two lists add up |
| `Quantile.InBoundOrder` | console/src/api/exposition.ts:139 | the entries in order of bound, each once |
| `Quantile.Scan` | console/src/api/exposition.ts:140-161 | the loop computes the quantile of the buckets |
| `Quantile.QuantileBetween` | console/src/api/exposition.ts:111-164 | that quantile, of the increase of the histogram between the scrapes |
| `Quantile.HistogramIsUnique` | console/src/api/exposition.ts:134-139 | there is one such histogram |
| `Quantile.QuantileIsAtRank` | console/src/api/exposition.ts:142-161 | for `q` over 0 and up to 1, the value lies in the bucket that holds `q` times the count, at the point where the interpolated count is exactly that; past the last finite bound it is that bound, and the interpolated count is under `q` times the count everywhere |
| `Quantile.NoneWithoutData` | console/src/api/exposition.ts:140-141 | there is no quantile exactly when nothing was observed |
| `Quantile.CdfIsPiecewiseLinear` | console/src/api/exposition.ts:143-161 | the interpolated count is each bucket's at its bound and goes in straight lines between them, the first from 0 at 0 |
| `Quantile.QuantilesRise` | console/src/api/exposition.ts:142-161 | a higher rank gives no lower value |
| `Quantile.QuantileInvertsCdf` | console/src/api/exposition.ts:142-161 | for every real `x`, the interpolated count at `x` reaches the rank exactly when `x` is at least the value; past the last finite bound, nowhere |
| `Quantile.Increases` | console/src/pages/Dashboard.tsx:73-77 | the guard's list is the histogram the quantile is taken of if and only if every bound is a number spelt one way, none is gone and none was counted under another spelling |
| `Quantile.IncreasesAreTheHistogram` | console/src/pages/Dashboard.tsx:73-77 | summing by text and by bound then agree |
| `Quantile.HistogramNeedsComparable` | console/src/pages/Dashboard.tsx:73-77 | and only then |
| `Quantile.LiveLatency` | console/src/pages/Dashboard.tsx:71-86 | percentiles shown are always the histogram's; where the guard looks at that histogram, the answer is justified: none, inconsistent, or values at 0.5 and at 0.99 of the count, the first at most the second |
| `Quantile.GoneBoundPasses` | console/src/pages/Dashboard.tsx:75-82 | with a bound gone, the guard passes counts that fall |
| `Quantile.PercentilesAreJustified` | console/src/pages/Dashboard.tsx:78-85 | past the guard both percentiles exist and are right |
| `SigV4.EscapeRFC3986` | sdk/go/sigv4.go:48-61 | the loop escapes each byte by itself |
| `SigV4.UnreservedIsListed` | sdk/go/sigv4.go:49 | the bytes left as they are are the 66 listed |
| `SigV4.EscapeIsTheOnly` | sdk/go/sigv4.go:45-61 | the text written is the only one of those bytes and of `%` with two upper-case digits, for any other byte, that decodes to what was escaped |
| `SigV4.EscapePath` | sdk/go/sigv4.go:37-43 | escaping segment by segment is escaping all but slashes |
| `SigV4.PathKeepsSlashes` | sdk/go/sigv4.go:30-43 | slashes stay, and what is between them is escaped by itself |
| `SigV4.Decode` | bin/cli/src/stub_tests.rs:35-52 | the loop decodes each `%` with two hexadecimal digits, or a plus sign and one, after it, reads the bytes as UTF-8 with what is not replaced, and stops the program exactly where it would cut a character |
| `SigV4.DecodeUndoesEscape` | sdk/go/sigv4.go:48-61 | decoding gives back every byte string |
| `SigV4.DecodeUndoesPath` | sdk/go/sigv4.go:37-43 | and every path |
| `SigV4.DecodeGivesTheText` | bin/cli/src/stub_tests.rs:35-52 | so every text escaped, as a value or a path, is given back as that text, and the program is not stopped |
| `Utf8.BytesReadBack` | bin/cli/src/stub_tests.rs:51 | nothing is replaced in a text's own bytes |
| `SigV4.CanonicalQuery` | sdk/go/sigv4.go:63-78 | the result renders the query's pairs, each as often as it occurs, in order of key and then value |
| `SigV4.SmallerByteFirst` | sdk/go/sigv4.go:68-72 | of two keys that first differ at some byte the one with the smaller byte is rendered first, and a key before those it begins; so are the values of one key |
| `SigV4.RenderIs` | sdk/go/sigv4.go:74-77 | a pair is rendered as its key, `=` and its value, with one `&` between each two pairs |
| `SigV4.QueryIsReadBack` | sdk/go/sigv4.go:63-78 | reading a rendered query gives the pairs back |
| `SigV4.CanonicalFormIsExact` | sdk/go/sigv4.go:63-78 | two queries have one canonical form if and only if they are the same multimap, whatever the order of keys and values |
| `SigV4.SentIsSigned` | sdk/go/client.go:221-224 | the query sent, parsed and made canonical again to be signed, is the same string |
| `Calendar.CivilCountsBack` | bin/s3-bench/src/main.rs:220-233 | for every integer day the date exists in the Gregorian calendar and counts back to that day |
| `Calendar.EveryDateIsReached` | bin/s3-bench/src/main.rs:220-233 | every Gregorian date comes from its own day number |
| `Calendar.EpochIsDayZero` | bin/s3-bench/src/main.rs:220-233 | day 0 is 1970-01-01 |
| `Calendar.DaysFollowTheCalendar` | bin/s3-bench/src/main.rs:220-233 | the next day converts to the next date, for every integer |
| `Calendar.LaterDayLaterDate` | bin/s3-bench/src/main.rs:220-233 | a later day is a later date, and only then |
| `Calendar.YearOfEraHolds` | bin/s3-bench/src/main.rs:223-225 | the closed form finds the year of the era that holds the day |
| `Calendar.StampHoldsTheSeconds` | bin/s3-bench/src/main.rs:207-217 | the stamp's date and time are in range and count back to the seconds |
| `Dedup.FixedTiles` | bin/dedup-estimate/src/main.rs:68-71 | blocks of any size but 0 tile every body |
| `Dedup.BlocksAreAligned` | bin/dedup-estimate/src/main.rs:40-41 | every block starts at a multiple of the size and all but the last are whole |
| `Dedup.ChunksAreTheBody` | bin/dedup-estimate/src/main.rs:89-97 | however a body is split into parts and cut, its chunks in order are the body |
| `Dedup.PartsAreWhole` | bin/dedup-estimate/src/main.rs:91-95 | every part but the last is of the size asked for and none is empty; without a size, or of an empty body, there is one |
| `Dedup.CutPartByPart` | bin/dedup-estimate/src/main.rs:91-98 | no chunk crosses from one part into the next |
| `Dedup.Run.Add` | bin/dedup-estimate/src/main.rs:89-109 | a run's counters after a body are those of its chunks counted one by one |
| `Dedup.Run.AddChunk` | bin/dedup-estimate/src/main.rs:99-106 | a chunk counts as zero, as duplicate, or is remembered |
| `Dedup.ZerosOfOne` | bin/dedup-estimate/src/main.rs:100-103 | a chunk counts as zero exactly when every byte of it is |
| `Dedup.Run.AddFiles` | bin/dedup-estimate/src/main.rs:175-185 | and so on over all files |
| `Dedup.Conservation` | bin/dedup-estimate/src/main.rs:98-106 | bytes are zero, duplicate, or those of one chunk for each fingerprint seen; of every distinct chunk when no two share one |
| `Dedup.EstimateIsExact` | bin/dedup-estimate/src/main.rs:88-110 | with an injective fingerprint the files' sizes are the zero bytes, the duplicate bytes and the distinct chunks' |
| `Dedup.OrderDoesNotMatter` | bin/dedup-estimate/src/main.rs:88-110 | the same files in another order give the same totals, when their chunks of one fingerprint have one length |
| `Dedup.AnyOrderExactlyWhen` | bin/dedup-estimate/src/main.rs:98-106 | every order of given chunks gives the same totals if and only if those of them that share a fingerprint, zeros aside, have one length |
| `Dedup.FileOrderDoesNotMatter` | bin/dedup-estimate/src/main.rs:88-110 | with a fingerprint injective on the files' chunks, no total depends on the order of the files |

## Left out

- The storage engine: gateway, metadata service, OSDs, erasure code. Its libraries are not part of this model.
- Faults, VM control, HTTP, sleeps, deadlines and retries of the chaos scripts and of the installer: steps that may or may not happen.
- The soak's statistics, its operation log, the choice of keys to check, the background verifier, the final deletion and the leak check. A body's digest is any number.
- `read_outcome`: a read is taken to answer; a reading that is a status code is one no set allows.
- Rounding of the reported gap to a tenth of a second, and the tallies of errors.
- The ceiling `NOT_CLEAN_MAX_SECS` and the messages of the recovery watch.
- `GroupFormation`: the leader is taken to know its group's voters when asked; waiting for a leader either ends or fails the run.
- `Parse`: characters are Unicode characters, not UTF-16 units; a label named `__proto__` is not modelled.
- `ReadLabels`: backtracking in the expression engine is replaced by a scan, proved equal to the expression.
- `QuantileBetween`: the `by` and `match` parameters are not modelled; a histogram has one group.
- `LiveLatency`: where an `le` text is not a number, what the engine's sort does is not modelled beyond that it reorders.
- SHA-256, HMAC, headers and the rest of request signing.
- `Reads`: the word rules are those of `systemd.syntax(7)` and `systemd.service(5)`; numeric escapes and repeated prefixes are not modelled. Which paths are refused (systemd refuses quotes, backslashes and control characters in them, which the manual pages do not say) is left to a parameter.
- `rename_program`, `rename_unit` and the files they write: paths are the library's, and the replacement in a description may create a new match.
- `Plan`: the flags that carry no port, the OSDs' configuration files and the directories.
- `escape` and the date formats of the benchmark client: the first is `SigV4.EscapeRFC3986` again.
- `CivilFromDays`: days are unbounded; the overflow of 64-bit numbers is not modelled.
- `Run`: counters are unbounded; one domain, so the fingerprint is of the chunk alone; a fixed size of 0, at which the program stops, is excluded by `Tiles`.
- The command line's configuration and output, the SDK's request wrappers and the rest of the console: thin layers over servers outside this model.
