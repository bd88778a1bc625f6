# Verification of the VRRP daemon

A Dafny model of a VRRP daemon (RFC 3768) and proofs about it. `dafny verify dfyconfig.toml` checks
the whole project.

What is modelled:

- **The advertisement queue** (`AdvQueue.dfy`, `Schedules.dfy`, `Lists.dfy`): the doubly linked gap
  list driven by one `ualarm`. Each operation is proved to act on the schedule of absolute deadlines
  as insertion, deletion, removal of the minimum, or not at all.
- **The instance registry** (`Registry.dfy`): the sorted, sentinel-headed list, its searches with
  wildcards, and the cursor of the show command.
- **One daemon** (`DaemonModel.dfy`, `DaemonProofs.dfy`, `DaemonRuns.dfy`): a state machine over
  commands, timer expiry, received advertisements and time. Proved of it: the invariant of every run,
  what one firing of the timer handles and when it ends, when a backup takes over, whom a farewell
  promotes, the table of masters heard of.
- **The daemon's code** (`Daemon.dfy`, on the records of `Objects.dfy`): the handlers as methods over
  the two linked lists and the `flag` array. Every handler is proved to refine its step of the state
  machine and to restore the invariant.
- **Many routers** (`Election.dfy`): routers backing one VRID and a network that may lose, delay,
  reorder and duplicate. Safety of the top-priority master, what a round of advertisements elects,
  handover, both also as runs, and exactly when an election is stable.
- **Many daemons** (`DaemonFleet.dfy`, `DaemonGroup.dfy`): daemons with any number of instances, and
  the safety of the top-priority master of each VRID over all their runs; and a daemon with one instance
  as a router of that election, step by step, so that the outcomes of a round and of a handover hold of
  groups of daemons.
- **Checksum and commands** (`Checksum.dfy`, `CommandCodec.dfy`): the Internet checksum loop and the
  encoding of the administration commands.

## As written, and repaired

Some operations do not do what their comments and their callers want of them. Where that is so the
project holds both: the operation as written, with the exact condition under which it works, and a
repaired one that the rest builds on. Rows below that model a repaired operation say so.

| operation | as written | stated by | repair |
|---|---|---|---|
| append to the queue (vrrpd_impl.c:446-451) | links behind `curr`, which is null there, and leaves the last gap | `EnqueueImpl` | remembers the predecessor; the new last gap is zero |
| insert into the queue (vrrpd_impl.c:457-458) | overwrites `curr->qprev` before reading it | `EnqueueImpl` | reads it first |
| re-arming (vrrpd_impl.c:468) | sets the alarm to the head's gap, of a queue that is broken by then | `EnqueueImpl` | sets it to the head's remaining time |
| removal (vrrpd_impl.c:506-513) | null dereference for the head of a longer queue, stale gap for the tail | `RmqueueImpl` | the alarm takes over the head's gap; the new last gap is zero |
| membership (vrrpd_impl.c:497) | takes the only entry of a queue for one not queued | `MembershipTestIsExactFromTwoOn` | compares with the head as well |
| `vrrp_state_b2i` (state.c:113) | overwrites the gap of a queued entry | `BackupToInitImpl` | removes the entry with its gap intact |
| transitions of a VR that may not be queued (state.c:93, state.c:137) | removal of an entry that is not queued empties the queue | `RmqueueImpl`, `RequeueImpl` | removes it only if it is queued |
| timer loop (timer.c:35-44) | reads `qnext` after it was cleared | `SignalAlarm` of `AdvQueue` | reads it before |
| timer promotion (timer.c:75-76) | enters the VR a second time | `SignalAlarm` of `AdvQueue` | the promotion has entered it |
| other alarms (state.c:149, timer.c:66-82, vrrpd.c:320) | `alarm` sets the one timer `ualarm` uses | `Alarm` | only the queue sets the timer |

Kept as written everywhere, with these consequences proved: the truncated skew
(`WrittenSkewSeparatesExactly`, `PunctualAdvertCanBeLate`); the conversion of timeouts to 32 bits
(`AlarmEndsExactly`, `MasterDownIsThreeIntervals`); the farewell a router sends when it steps down, where
RFC 3768, section 6.4.3, sends none (`StepDownConvergesExactlyForPairs`, `ThreeRoutersMayNeverConverge`);
the promotion of the first registered instance by any priority-0 advertisement, and the crash if there is
none (`FarewellFindsItsOwnExactly`); the refusal of VRID 0 by `vrrp_rmqueue` during a destroy
(`WildcardDestroyDangles`, `DestroyKeepsInvExactly`); the use of the search result before the null test in
destroy (`Vrrpd.Destroy`); the conflict check that can let an incomplete key in twice
(`CreateDuplicatesExactly`, `CreateDuplicatesKeyExactly`); the cursor that stops at an ambiguous key
(`CursorVisitsAllExactly`, `CursorCanMissAnInstance`); and priority 0 for a master
(`ZeroPriorityUndoesTheRound`, `ElectionIsStableExactly`).

A run is made of proper steps. The improper ones are two, and each is exactly a step that breaks the
invariant (`StepKeepsInvExactly`): the create that registers a key for the second time, and the destroy
by a wildcard VRID that leaves a queued VR behind.

A step of a daemon is a handler that ends. Where the timer's does not, by `AlarmEndsExactly`, the daemon
takes no further step.

The comment in front of the checksum loop assumes a 32-bit `long`. With it, the test for the high bit
comes after the addition has overflowed; with a 64-bit `long` the loop is right on all inputs. Both
widths are modelled.

Time is counted in microseconds. A step of a daemon is atomic. Sending an advertisement appends its
VRID and priority to the list of those sent. In the election a message once sent can be delivered any
number of times, or never.

## Model

| member | source | states |
|---|---|---|
| `Protocol.RfcSkewOrdersBackups` | vrrpd_impl.c:415-416 | the intended skew, (256 - priority) s / 256, is strictly decreasing in the priority, and puts the master-down interval into (3 * delay, 3 * delay + 1 s] |
| `Protocol.WrittenSkewSeparatesExactly` | vrrpd_impl.h:1 | the skew as the macro computes it separates two backups exactly when one of them has priority 0; all others time out after three intervals sharp |
| `Protocol.MasterDownFitsInt` | vrrpd.c:693-695 | the timeout expressions stay within a C `int` exactly for intervals of at most 715 s |
| `AdvertisementQueue.AdvQueue.InOrder` | vrrpd_impl.c:451-464 | gaps that are never negative make the deadlines ascend along the list |
| `AdvertisementQueue.AdvQueue.DueAfterTheGaps` | vrrpd_impl.c:436-451 | the deadline of entry k is now, plus what is left of the alarm, plus the gaps in front of k |
| `AdvertisementQueue.AdvQueue.Ualarm` | vrrpd_impl.c:433-434 | setting the alarm returns what was left of the previous one |
| `AdvertisementQueue.AdvQueue.Alarm` | state.c:149 | as written, `alarm` sets the queue's own timer: called on a queue it keeps the register right exactly when the queue is empty or its head is due just that many seconds from now (also timer.c:66-82 and vrrpd.c:320) |
| `AdvertisementQueue.AdvQueue.Elapse` | vrrpd_impl.c:433-434 | while time passes the alarm runs down and every deadline stays what it was |
| `AdvertisementQueue.AdvQueue.Walk` | vrrpd_impl.c:441-444 | the walk stops at the first entry due no earlier than the new one; its 32-bit sum is then some entry's remaining time, so nothing is lost to wrapping |
| `AdvertisementQueue.AdvQueue.AppendAfter` | vrrpd_impl.c:446-451 | (repaired) appending keeps the links inverse, the last gap zero and every other deadline |
| `AdvertisementQueue.AdvQueue.InsertBefore` | vrrpd_impl.c:452-466 | (repaired) inserting before an entry keeps the links inverse and every other deadline |
| `AdvertisementQueue.AdvQueue.Splice` | vrrpd_impl.c:440-468 | (repaired) walking and linking puts the entry at its place and leaves the alarm set for the head |
| `AdvertisementQueue.AdvQueue.Enqueue` | vrrpd_impl.c:429-472 | (repaired) the queue becomes the old one with the entry in front of the first later-or-equal deadline, its deadline now + timeout; no other deadline moves and the alarm is armed for the head |
| `AdvertisementQueue.AdvQueue.Remove` | vrrpd_impl.c:504-520 | (repaired) the queue becomes the old one without the entry, wherever it was; no other deadline moves, the alarm is armed for the new head, and the entry is isolated |
| `AdvertisementQueue.AdvQueue.Dequeue` | vrrpd_impl.c:474-483 | (repaired) the earliest entry is taken out, or null returned from an empty queue |
| `AdvertisementQueue.AdvQueue.IsQueuedExactly` | vrrpd_impl.c:497-499 | (repaired) the membership test is true exactly of the queued entries |
| `AdvertisementQueue.AdvQueue.MembershipTestIsExactFromTwoOn` | vrrpd_impl.c:497-499 | as written the test is true exactly of the entries of a queue of two or more |
| `AdvertisementQueue.AdvQueue.BackLinkBreaksList` | vrrpd_impl.c:456-458 | a back link that does not lead to the predecessor leaves no list at all, in either direction |
| `AdvertisementQueue.AdvQueue.LinkAsWritten` | vrrpd_impl.c:453-466 | as written the new entry's back link ends up on the entry itself |
| `AdvertisementQueue.AdvQueue.EnqueueImpl` | vrrpd_impl.c:429-472 | as written an entry is entered properly exactly into an empty queue; otherwise the null end of the walk is written through exactly when the entry is due last, and in every other case no list is left, whatever the gaps are |
| `AdvertisementQueue.AdvQueue.RmqueueImpl` | vrrpd_impl.c:504-520 | as written the removal dereferences null exactly for the head of a longer queue, and leaves exactly the other deadlines if and only if the entry is the only one, or behind the head and either holds the right gap or is the last and due with its predecessor |
| `AdvertisementQueue.AdvQueue.RequeueImpl` | state.c:137-139 | as written an entry, queued or not, is requeued properly exactly when there is no other; otherwise the code crashes or none of the others is in any list that is left |
| `AdvertisementQueue.AdvQueue.BackupToInitImpl` | state.c:113-115 | as written the other deadlines survive exactly when there are none, or the entry is behind the head and either the next is due one interval of the instance later or it is last and due with its predecessor; the head of a longer queue crashes |
| `AdvertisementQueue.AdvQueue.SecondsFit` | state.c:149 | an interval in seconds sets the timer to what its conversion to 32-bit microseconds says exactly up to 4294 s |
| `AdvertisementQueue.AdvQueue.SignalAlarm` | timer.c:35-84 | as written, `alarm` calls included, the loop never takes a second turn and crashes exactly when more than one entry is queued; a single master is advertised and requeued, with the alarm right exactly up to 4294 s; a single backup becomes MASTER and leaves no list |
| `Schedules.InsertedDeadlines` | vrrpd_impl.c:429-472 | inserting is insertion into the map of deadlines |
| `Schedules.PlacedDeadlines` | vrrpd_impl.c:429-472 | entering one that may be scheduled already leaves its sooner deadline, and every other deadline |
| `Schedules.RemovedDeadlines` | vrrpd_impl.c:504-520 | removing is deletion from the map of deadlines |
| `Schedules.InsertedOnSchedule` | vrrpd_impl.c:441-466 | insertion at the place of the walk keeps the queue sorted, without duplicates and not overdue |
| `Schedules.RemovedOnSchedule` | vrrpd_impl.c:504-520 | so does removal |
| `KeyLists.SearchIsExact` | vrrpd_impl.c:152-206 | a query with VRID, name and family finds the first instance of just this key; any other finds i exactly when i is the only one whose key, with the fields the query leaves open cleared, is the query |
| `KeyLists.MatchesExactly` | vrrpd_impl.c:194-196 | an instance matches exactly when it agrees with the query in every field that is not a wildcard |
| `KeyLists.SearchFindsTheOnlyMatch` | vrrpd_impl.c:152-206 | a partial query finds an instance if and only if it is the only match; among unique keys a complete query does too, and finds exactly the instance of that key |
| `KeyLists.InsertKeepsRegistered` | vrrpd_impl.c:36-96 | creating keeps the list sorted and free of duplicates exactly if the key is new to it, and adds just this key |
| `KeyLists.RemoveKeepsRegistered` | vrrpd_impl.c:257-261 | unlinking keeps the list sorted and free of duplicates and removes just this key |
| `KeyLists.CreateDuplicatesExactly` | vrrpd_impl.c:36-39 | a create that finds no conflict registers its key twice exactly when the key is incomplete, registered, and matched by some other registered key |
| `KeyLists.IncompleteKeysCanBeDuplicated` | vrrpd_impl.c:36-39 | a concrete list in which that happens |
| `KeyLists.ListingFrom` | vrrpd_impl.c:318-342 | from any instance on, feeding the returned key back lists all that follow, in order, exactly if none of them is lost to its own key |
| `KeyLists.ListingExactly` | vrrpd_impl.c:318-342 | of any list, starting with the null key shows every instance once and in order exactly if each but the first is found by its own key |
| `KeyLists.CursorStopsExactly` | vrrpd_impl.c:318-342 | of unique keys nothing is ever shown twice or out of order: exactly the instances before the first one that its own key does not find are shown |
| `KeyLists.CursorVisitsAllExactly` | vrrpd_impl.c:318-342 | of unique keys every instance is shown exactly if every key behind the first is complete or matched by no other key |
| `KeyLists.CursorVisitsEveryInstanceOnce` | vrrpd_impl.c:318-342 | so with complete and unique keys every instance is shown once, in list order, and the null key comes back with the last one and not before |
| `InstanceRegistry.Registry.WalkTo` | vrrpd_impl.c:76-84 | the walk ends at the insertion point of the VRID |
| `InstanceRegistry.Registry.Append` | vrrpd_impl.c:84-89 | appending keeps the doubly linked list |
| `InstanceRegistry.Registry.InsertBefore` | vrrpd_impl.c:90-96 | inserting keeps the doubly linked list |
| `InstanceRegistry.Registry.Link` | vrrpd_impl.c:64-98 | the list becomes the old one with the instance in front of the first VRID that is not smaller |
| `InstanceRegistry.Registry.Unlink` | vrrpd_impl.c:257-261 | the list becomes the old one without the instance, with all links inverse |
| `InstanceRegistry.Registry.SearchFull` | vrrpd_impl.c:161-177 | the loop finds what the search of the key sequence finds |
| `InstanceRegistry.Registry.SearchPart` | vrrpd_impl.c:179-206 | the counting loop finds what the search of the key sequence finds, and null for a second match |
| `InstanceRegistry.Registry.Find` | vrrpd_impl.c:152-158 | a query is searched in full exactly when it is complete |
| `InstanceRegistry.Registry.GetInstx` | vrrpd_impl.c:318-342 | the delivered instance and the returned cursor key are those of the key sequence; a failed call leaves the cursor alone |
| `DaemonModel.Ties` | timer.c:41-44 | the entries due together with the head: all of them and no more |
| `DaemonProofs.EnterIsInsert` | vrrpd_impl.c:429-472 | entering is insertion into the map from keys to deadlines, and keeps the order |
| `DaemonProofs.LeaveIsDelete` | vrrpd_impl.c:486-520 | leaving is deletion from that map, also for a key that is not in it |
| `DaemonProofs.RetimeMovesOne` | vrrpd_impl.c:363-364 | removing and entering again moves exactly one deadline |
| `DaemonProofs.BackupToMasterEffect` | state.c:127-154 | a promotion makes the instance MASTER, due one interval from now, and changes nothing else |
| `DaemonProofs.CreateSchedulesExactly` | vrrpd.c:307-321 | a create with an interval, addresses and no conflict adds an INIT instance that is not scheduled, or for priority 255 a MASTER due one interval from now, or sooner if its key is scheduled already; no other deadline moves and nothing is sent |
| `DaemonProofs.DestroySchedulesExactly` | vrrpd_impl.c:209-267 | a destroy that finds an instance removes it; naming its VRID it also removes the deadline and multicasts exactly one farewell, whatever the state; with a wildcard VRID the schedule stays and a MASTER sends none |
| `DaemonProofs.StartupSchedulesExactly` | state.c:56-78 | the startup of an INIT instance found by its VRID succeeds and schedules the VR one interval from now, as BACKUP exactly if the table has a master of some VRID above 0 and as MASTER otherwise; no other deadline moves and nothing is sent |
| `DaemonProofs.AnyMasterUpExactly` | state.c:189-198 | the table scan finds a master exactly if an entry from its start on is set, and then the first one |
| `DaemonProofs.ShutdownSchedulesExactly` | vrrpd_impl.c:297-315 | the shutdown of a MASTER or BACKUP found by its VRID succeeds, removes just this deadline and multicasts a farewell exactly for a MASTER |
| `DaemonProofs.CreateKeepsInvExactly` | vrrpd_impl.c:23-101 | a create keeps the invariant exactly when its key is not registered or it is refused |
| `DaemonProofs.CreateDuplicatesKeyExactly` | vrrpd.c:307-311 | a create duplicates a key exactly when it passes the argument checks with an incomplete, registered key that another registered key matches |
| `DaemonProofs.DestroyKeepsInvExactly` | vrrpd_impl.c:209-267 | a destroy keeps it exactly when the query names its VRID, fails, or hits an instance that is not queued |
| `DaemonProofs.StartupKeepsInv` | vrrpd_impl.c:270-293 | every startup keeps it |
| `DaemonProofs.ShutdownKeepsInv` | vrrpd_impl.c:297-315 | every shutdown keeps it |
| `DaemonProofs.ModifyKeepsInv` | vrrpd_impl.c:345-387 | every modify keeps it and sends nothing |
| `DaemonProofs.ModifyRetimesExactly` | vrrpd_impl.c:357-366 | a modify with legal modes that finds an instance sets exactly the given ones of its four properties; a new interval, the VRID being named, puts a MASTER one such interval from now, a BACKUP three and the skew of its new priority, and moves no other deadline; a VR not queued stays so |
| `DaemonProofs.StartupAnswersExactly` | vrrpd_impl.c:270-293 | each return code of a startup by its exact condition; a refused one changes nothing |
| `DaemonProofs.ShutdownAnswersExactly` | vrrpd_impl.c:297-315 | the same for shutdown, which is carried out exactly for a MASTER or BACKUP that is found |
| `DaemonProofs.CreateAnswersExactly` | vrrpd_impl.c:23-39 | the same for create |
| `DaemonProofs.DestroyAnswersExactly` | vrrpd_impl.c:209-267 | the same for destroy, which crashes exactly when it finds nothing |
| `DaemonProofs.ModifyAnswersExactly` | vrrpd_impl.c:345-353 | the same for modify |
| `DaemonProofs.ReceiveKeepsInv` | vrrpd.c:475-507 | every advertisement keeps it |
| `DaemonProofs.IntervalVanishesExactly` | vrrpd_impl.h:1 | an interval converts to zero microseconds exactly when it is a multiple of 2^26 seconds |
| `DaemonProofs.HandledKeepsInv` | timer.c:53-78 | a turn keeps the invariant |
| `DaemonProofs.TurnLeavesTheRest` | timer.c:35-44 | after a turn that requeues its entry later exactly the other due entries are due |
| `DaemonProofs.TurnsHandle` | timer.c:53-83 | the first n entries being due, n turns make their owners MASTER, advertise for the masters among them in queue order, and requeue each by its own interval |
| `DaemonProofs.TurnsLead` | timer.c:35-84 | such a chain of turns ends where the loop counted n times does |
| `DaemonProofs.AlarmHandlesExactlyTheDue` | timer.c:35-84 | one firing that ends handles exactly the entries whose deadline is now, each once and in queue order; it leaves none due, or just the last of them if that one's interval converts to nothing |
| `DaemonProofs.EndsExactly` | timer.c:35-44 | the loop ends exactly when each due entry but the last is requeued later than now, in as many turns as entries are due |
| `DaemonProofs.AlarmEndsExactly` | timer.c:35-44 | the handler ends if and only if none of the entries due now, the last excepted, has an interval that is a multiple of 2^26 s (0, which a modify may set, is one) |
| `DaemonRuns.StepKeepsInvExactly` | vrrpd_impl.c:209-315 | a step keeps the invariant exactly when it is proper: no accepted create of a registered key, no wildcard-VRID destroy of a queued VR |
| `DaemonRuns.WildcardDestroyDangles` | vrrpd_impl.c:250-253 | a destroy with VRID 0 unregisters the instance and leaves its VR queued exactly when it was |
| `DaemonRuns.FirstDeadlineIsReached` | vrrpd_impl.c:433-434 | time can pass to the first deadline and not beyond; there the alarm goes off, if its handler ends, and handles the entries due |
| `DaemonRuns.CursorCanMissAnInstance` | vrrpd_impl.c:318-342 | two creates without a conflict after which the cursor shows one of the two instances only |
| `DaemonRuns.RunsKeepInv` | state.c:28-187 | at every point of every run of proper steps, creates of incomplete keys included, the registry is sorted and free of duplicates, and a VR is queued, once, if and only if its instance is registered and MASTER or BACKUP |
| `DaemonRuns.FlagIsHistory` | vrrpd.c:581-587 | at every point of a run the table entry of a VRID is set exactly when the last advertisement for it had a nonzero priority |
| `DaemonRuns.StartupInARun` | state.c:71-75 | in every run a startup ends in MASTER exactly when no VRID's last advertisement was other than a farewell |
| `DaemonRuns.DemotionIsStable` | state.c:157-187 | a master outbid by an advertisement ends in BACKUP, farewell sent, due one interval from now: the fallback never undoes it; nothing else changes |
| `DaemonRuns.AcceptedAdvertSchedulesExactly` | vrrpd.c:688-699 | a BACKUP that does not preempt, or hears at least its own priority, is due its master-down interval from now, and nothing else changes |
| `DaemonRuns.RejectedAdvertChangesNothing` | vrrpd.c:688-710 | a BACKUP that is to preempt the sender, a MASTER not outbid and an INIT instance ignore an advertisement handed to them: it is only noted in the table |
| `DaemonRuns.AdvertForNobody` | vrrpd.c:475-507 | so is an advertisement of VRID 0 or for no instance of the daemon |
| `DaemonRuns.OnlyOutrankedMastersStepDown` | vrrpd.c:700-710 | no other advertisement moves a master |
| `DaemonRuns.StepElsewhere` | vrrpd_impl.c:209-387 | every instance a step other than the timer's does nothing to, be it that it is about another one, refused, or an advertisement the instance is to ignore, stays as it is and its VR keeps its exact deadline |
| `DaemonRuns.BackupIsPromotedExactlyAtItsDeadline` | timer.c:74-83 | by a step that does nothing to it, rejected advertisements and refused commands included, a backup is promoted if it is the alarm at its deadline and waits on otherwise; time does not pass the deadline |
| `DaemonRuns.AcceptedAdvertRetimes` | vrrpd.c:688-699 | an accepted advertisement sets the backup's timer to the master-down interval from now |
| `DaemonRuns.StepServes` | vrrpd.c:688-699 | a step that a waiting backup hears of only by advertisements retimes it if it accepts one, promotes it if it is the alarm at the deadline, and leaves it otherwise |
| `DaemonRuns.BackupTakesOverExactly` | vrrpd.c:688-699 | at every point of every such run the backup still waits, until a master-down interval after the last advertisement it accepted, or the alarm has promoted it at exactly that time |
| `DaemonRuns.UnservedBackupTakesOver` | timer.c:74-83 | in a run in which it accepts none, whatever it hears and rejects, it waits until its deadline and is promoted at it by the time it has passed |
| `DaemonRuns.NoFalseTakeover` | vrrpd.c:688-699 | a backup whose deadline was always ahead, rejected advertisements and refused commands included, stays a backup throughout the run, its timer always set for the last advertisement accepted |
| `DaemonRuns.IntervalByResidue` | vrrpd_impl.h:1 | an interval in microseconds depends on the delay modulo 2^26 only |
| `DaemonRuns.MasterDownIsThreeIntervals` | vrrpd_impl.c:415-416 | the interval and the master-down interval in microseconds for every delay and priority; the latter is three intervals and the skew exactly for these residues of the delay, of the delays up to 4294 s those up to 1431 s; the skew is 1 s for priority 0 and nothing for all others |
| `DaemonRuns.PunctualAdvertCanBeLate` | vrrpd_impl.c:415-416 | an advertisement exactly three intervals after the last one is in time or too late, depending on whether the alarm, due then as well, comes first |
| `DaemonRuns.FarewellFindsItsOwnExactly` | vrrpd.c:584-597 | a priority-0 advertisement promotes the backup of its own VRID and moves nobody else exactly when the first registered instance is that match, or neither is a BACKUP; an empty registry crashes |
| `DaemonRuns.FarewellCanPromoteAnother` | vrrpd.c:584-597 | two backups of which the wrong one is promoted |
| `VrrpDaemon.Vrrpd.Enter` | vrrpd_impl.c:429-472 | (repaired) entering a VR is the model's Enter, and moves nothing but the queue |
| `VrrpDaemon.Vrrpd.Leave` | vrrpd_impl.c:486-501 | (repaired) removing a VR, queued or not, is the model's Leave |
| `VrrpDaemon.Vrrpd.Requeue` | state.c:168-170 | remove, set the timeout and enter again is Leave and then Enter |
| `VrrpDaemon.Vrrpd.AnyMasterUp` | state.c:189-198 | the loop returns the first VRID above 0 a master is up for, or 0 |
| `VrrpDaemon.Vrrpd.BackupToMaster` | state.c:127-154 | (repaired) the promotion refines the model's |
| `VrrpDaemon.Vrrpd.InitToMaster` | state.c:28-53 | (repaired) refines the model's transition |
| `VrrpDaemon.Vrrpd.InitToBackup` | state.c:56-78 | (repaired) refines the model's transition, fallback to MASTER included |
| `VrrpDaemon.Vrrpd.MasterToInit` | state.c:81-105 | (repaired) refines the model's transition, farewell included |
| `VrrpDaemon.Vrrpd.BackupToInit` | state.c:108-123 | (repaired) refines the model's transition |
| `VrrpDaemon.Vrrpd.MasterToBackup` | state.c:157-187 | (repaired) refines the model's transition, farewell and fallback included |
| `VrrpDaemon.Vrrpd.Find` | vrrpd_impl.c:152-158 | the instance found is the one the model finds; nothing changes |
| `VrrpDaemon.Vrrpd.Startup` | vrrpd_impl.c:270-293 | new state and return code are the model's, and the invariant holds again |
| `VrrpDaemon.Vrrpd.Shutdown` | vrrpd_impl.c:297-315 | the same for shutdown |
| `VrrpDaemon.Vrrpd.Create` | vrrpd.c:298-326 | new state and return code are the model's for every create, the promotion of an address owner and the duplicating create included; the invariant holds again exactly for a proper one |
| `VrrpDaemon.Vrrpd.RmQueue` | vrrpd_impl.c:486-501 | vrrp_rmqueue refuses the wildcard VRID and otherwise removes just this VR |
| `VrrpDaemon.Vrrpd.Destroy` | vrrpd_impl.c:209-267 | the same for destroy; the invariant holds again exactly for a proper one, and where the missing search result is used before it is tested the outcome is the crash |
| `VrrpDaemon.Vrrpd.Retime` | vrrpd_impl.c:363-364 | vrrp_enqueue follows vrrp_rmqueue exactly if the VR was queued, with the timeout of the instance's state |
| `VrrpDaemon.Vrrpd.Modify` | vrrpd_impl.c:345-387 | new state and return code are the model's, and the invariant holds again |
| `VrrpDaemon.Vrrpd.Farewell` | vrrpd.c:585-597 | priority 0 promotes the first registered instance if it is a backup; an empty registry crashes |
| `VrrpDaemon.Vrrpd.ProcessAdvert` | vrrpd.c:654-716 | retiming, stepping down and ignoring are the model's |
| `VrrpDaemon.Vrrpd.Receive` | vrrpd.c:475-507 | new state and outcome are the model's, and the invariant holds again |
| `VrrpDaemon.Vrrpd.Turn` | timer.c:46-83 | (repaired) one turn of the timer is the model's |
| `VrrpDaemon.Vrrpd.Expire` | timer.c:35-44 | (repaired) one turn of the loop: the state is the model's, and the test made before it is true exactly if the next entry is due with this one |
| `VrrpDaemon.Vrrpd.SignalAlarm` | timer.c:35-84 | (repaired) where the loop ends its new state is the model's, for which see AlarmHandlesExactlyTheDue |
| `VrrpDaemon.Vrrpd.Elapse` | vrrpd_impl.c:433-434 | time passing is the model's step |
| `Election.RunsStayHonest` | vrrpd_adv.c:161-165 | over every run every message carries 0 or the configured priority of its sender, and priorities do not change |
| `Election.TopMasterLeavesOnlyByItself` | vrrpd.c:700-710 | a step takes a top-priority master out of MASTER exactly when it is its own shutdown or destruction |
| `Election.TopMasterIsNeverDeposed` | vrrpd.c:700-710 | without these it is MASTER after every run, whatever the interleaving, loss, delay or duplication of messages |
| `Election.RoundIsDecidedByTheLastWord` | vrrpd.c:584-716 | a round of any priorities, in any order, leaves a router that is up as the last word it hears has it: MASTER after a priority 0, BACKUP after one above its own, unmoved without either |
| `Election.ZeroPriorityUndoesTheRound` | vrrpd.c:584-597 | a master configured with priority 0, which create and modify accept, undoes any round if all the others hear it last: everybody else that is up ends as MASTER |
| `Election.RoundDemotesTheOutbid` | vrrpd.c:700-710 | in a round of advertisements of nonzero priorities, in any order, exactly the masters that hear a higher priority step down |
| `Election.RoundElectsTheBest` | state.c:157-187 | if no master has priority 0, a full round leaves t as the only MASTER exactly when t was the strictly best master; all other masters end in BACKUP and nobody else moves |
| `Election.FarewellPromotes` | vrrpd.c:584-597 | a farewell promotes exactly the backups it reaches |
| `Election.HandoverElectsTheBestLive` | state.c:253-256 | after the master's shutdown, its farewell and one full round, h is the only MASTER exactly when it is the strictly highest-priority live router, no live one having priority 0 |
| `Election.StepDownConvergesExactlyForPairs` | state.c:253-256 | as written, once the farewell of a router that stepped down has reached everybody, the winner is the only MASTER exactly when no third router is up |
| `Election.ElectionIsStableExactly` | state.c:253-256 | under either rule an only MASTER stays it under all further advertising and delivery exactly when no farewell is left that a backup could hear, no advertisement that outbids it, and its own priority is not 0 or nobody is a BACKUP |
| `Election.RfcRoundElectsStably` | state.c:253-256 | under the RFC rule, with no farewell about and no master of priority 0, a full round leaves t a stable MASTER exactly when it was the strictly best master and no advertisement is left that outbids it |
| `Election.OldFarewellUnsettles` | state.c:253-256 | a concrete network in which a farewell from before the election undoes it under the RFC rule too |
| `Election.RoundIsARun` | vrrpd.c:700-710 | a round is the run of the deliveries of advertisements that were sent |
| `Election.FarewellIsARun` | vrrpd.c:584-597 | a farewell is the run of its deliveries |
| `Election.AdvertisingElectsTheBest` | state.c:157-187 | in the run in which the masters, none of priority 0, advertise and this reaches all the others, in any order, t is left as the only MASTER exactly when it was the strictly best one |
| `Election.HandoverIsARun` | state.c:253-256 | the handover result for the run of shutdown, farewells, advertisements and their deliveries |
| `Election.ThreeRoutersMayNeverConverge` | state.c:253-256 | as written three routers have runs of every length that come back to two masters |
| `DaemonFleet.TopInstanceLeavesOnlyByItself` | vrrpd.c:584-716 | among any instances of its daemon, a MASTER that hears of no higher priority than p for its VRID stops being a MASTER of at least p exactly by a command carried out on itself: shutdown, destroy, or a priority below p |
| `DaemonFleet.StepStaysCapped` | timer.c:53-70 | a daemon none of whose commands configures more than p for a VRID never advertises more than p for it |
| `DaemonFleet.FleetStaysCapped` | vrrpd.c:893-920 | at every point of every run of any number of such daemons none of them has or has advertised more than p for the VRID, and each keeps its invariant |
| `DaemonFleet.TopInstanceIsNeverDeposed` | vrrpd.c:584-716 | in every such run, with any number of instances per daemon, a MASTER with the top priority of its VRID stays so until it itself is shut down, destroyed or given a lower priority, whatever the other instances, the other daemons and the network do |
| `DaemonGroup.StartupFollows` | vrrpd_impl.c:270-293 | a one-instance daemon's startup is the router's, or nothing if refused |
| `DaemonGroup.ShutdownFollows` | vrrpd_impl.c:297-315 | its shutdown is the router's, farewell included |
| `DaemonGroup.DestroyFollows` | vrrpd_impl.c:209-267 | its destruction is the router's, with exactly one farewell |
| `DaemonGroup.AlarmFollows` | timer.c:35-84 | its alarm is the router's advertisement or the expiry of its timer |
| `DaemonGroup.ReceiveFollows` | vrrpd.c:475-507 | an advertisement it receives is the delivery to the router, or nothing if it is for another VR |
| `DaemonGroup.StepFollows` | vrrpd.c:475-716 | every step of a one-instance daemon is the router's step in the election, or none, and multicasts the same priorities |
| `DaemonGroup.TurnTracked` | vrrpd.c:893-920 | a turn of one daemon of a group is a step of the network that stands for all of them |
| `DaemonGroup.RunTracked` | vrrpd.c:893-920 | at every point of every run of a group some honest network stands for its daemons |
| `DaemonGroup.TopDaemonIsNeverDeposed` | vrrpd.c:700-710 | in every run of a group of one-instance daemons a MASTER daemon with the highest configured priority stays MASTER until it is shut down or destroyed itself |
| `DaemonGroup.RunsAreRepresented` | vrrpd.c:893-920 | at every point of every run of a group some network stands for its daemons, which the next two ask for |
| `DaemonGroup.RoundElectsTheBestDaemon` | state.c:157-187 | once the advertisement of every MASTER daemon, none of priority 0, has reached every other daemon, in any order, t is left as the only MASTER exactly when it was the strictly best one |
| `DaemonGroup.HandoverElectsTheBestDaemon` | state.c:253-256 | after the shutdown of the only MASTER daemon, its farewell to all others and one full round, h is the only MASTER exactly when it is the live daemon with the strictly highest priority, no live one having priority 0 |
| `Checksum.OnesSumIsResidue` | vrrpd_adv.c:60-79 | the one's-complement sum is the plain word sum modulo 65535, and zero only for a zero sum (section 1 of RFC 1071) |
| `Checksum.WordTracked` | vrrpd_adv.c:65-70 | adding a word and folding early keeps the sum below 2^31, keeps it modulo 65535 up to the overflows of a 32-bit `long`, and never makes a nonzero sum zero |
| `Checksum.FoldKeepsResidue` | vrrpd_adv.c:75-76 | each final fold keeps the residue and makes progress |
| `Checksum.ComputeChecksum` | vrrpd_adv.c:60-79 | with a 64-bit `long` the result is the checksum of every byte string, odd lengths included; with 32 bits it is exactly when the plain sum stays below 2^31 |
| `Checksum.Seal` | router.c:461-463 | zero, compute, store: the packet verifies, and no other byte changes |
| `Checksum.SealedVerifies` | router.c:461-463 | storing the checksum of a zeroed packet makes the second computation return 0 |
| `Checksum.ReplacedWordIsDetected` | vrrpd_adv.c:60-79 | replacing one aligned word of a verified packet goes undetected exactly when it swaps 0x0000 and 0xFFFF and some other byte is nonzero |
| `Checksum.CreateVrrpPacket` | router.c:449-466 | the generated packet has its field values and verifies, whatever the padding byte |
| `CommandCodec.IntRoundTrip` | libvrrp.c:187-197 | four stored bytes are read back as the same `int`, negative ones included |
| `CommandCodec.IntLayout` | libvrrp.c:187-197 | an `int` is four bytes, the lowest first, in two's complement |
| `CommandCodec.InstLayout` | libvrrp.c:173-174 | the offset of every field of a create's instance description, padding zero |
| `CommandCodec.EncodedLayout` | libvrrp.c:126-208 | for every command its code and the offset of each of its parts, terminator and length included |
| `CommandCodec.InstRoundTrip` | libvrrp.c:173-174 | the instance description of a create is read back field by field |
| `CommandCodec.StrLenOfName` | libvrrp.c:307-308 | a NUL-free name ends at its terminator, whatever follows |
| `CommandCodec.CreateRoundTrip` | libvrrp.c:162-178 | a create is read back with all its addresses |
| `CommandCodec.TargetRoundTrip` | libvrrp.c:141-158 | remove, startup, shutdown and show are read back exactly when the name fits |
| `CommandCodec.ModifyRoundTrip` | libvrrp.c:181-197 | so is a modify with its four settings |
| `CommandCodec.RoundTrip` | libvrrp.c:126-208 | whatever stale bytes follow in the buffer, every command is read back unchanged and to its last byte exactly when its name fits the 32-byte buffer with its terminator |
| `CommandCodec.Put` | libvrrp.c:149-156 | copying appends the bytes at the pointer and touches nothing behind them |
| `CommandCodec.BuildCommand` | libvrrp.c:126-208 | the buffer holds the encoding, its length is returned, and nothing behind it is touched |
| `CommandCodec.ScanName` | libvrrp.c:307-308 | the scan stops at the first NUL within the received bytes |
| `CommandCodec.ParseCommand` | libvrrp.c:281-355 | the pointer-advancing parser yields the meaning Decode gives the bytes, reads past the end and name overflows included |

## Left out

- AdvertisementQueue.AdvQueue.Enqueue: the operation as repaired above; EnqueueImpl is the code as written.
- AdvertisementQueue.AdvQueue.Remove: the operation as repaired above; RmqueueImpl is the code as written.
- AdvertisementQueue.AdvQueue.AppendAfter: repaired; as written this branch dereferences null, which EnqueueImpl states.
- AdvertisementQueue.AdvQueue.InsertBefore: repaired; LinkAsWritten is the code as written.
- VrrpDaemon.Vrrpd.SignalAlarm: requires that the handler ends; AlarmEndsExactly says exactly when it does, and Expire models each turn without that.
- DaemonGroup.TopDaemonIsNeverDeposed: for daemons with one instance each, priorities as configured at the start; DaemonFleet.TopInstanceIsNeverDeposed has neither restriction.
- DaemonGroup.RoundElectsTheBestDaemon: for daemons with one instance each, with no other turns between the deliveries; so is HandoverElectsTheBestDaemon.
- Signed overflow of the timeout expressions, for intervals above 715 s, is modelled as wrapping to 32 bits; MasterDownFitsInt gives the bound.
- The limits of `ualarm`: setting it to 0 is taken to let it go off at once, and a wait of a second or more to be allowed.
- Sockets, poll loop, multicast membership, fork and exec of the forwarding process, daemonising, logging.
- Threads, mutexes and signal delivery; the `sleep` calls in state.c, which take no time here.
- The checks of an advertisement's IP header, its checksum verification (commented out in the source) and its fields other than VRID and priority.
- The end of the process: a step whose outcome is the crash changes nothing else, and the runs do not stop there.
- The return code of `vrrp_state_i2m`, an uninitialised variable (state.c:30, state.c:51): creating an address owner is modelled as a success. The return codes of the other transitions when `kill` fails, and `vrrp_master` and `vrrp_unmaster`, which always succeed.
- The second `signal_alarm`, in vrrpd.c:833-843, which is not the one the timer registers.
- Primary addresses, virtual addresses and the accept mode beyond being stored; names longer than the 32-byte field in the registry.
- `parse_vrrp_cmd` returns 0; the model reports how far it read instead. The struct layout is that of 4-byte pointers, with zero padding. The interface name is as long as its terminator says.
- Checksums on big-endian machines, where the odd last byte would count differently.
- `vrrpadm`'s options and output, sender.c, receiver.c, the forwarding loop of router.c, header filling: no property beyond field copies.
- Allocation failure.
