# Verified model of the replicated key-value store, its master, and the mail and form codecs

The repository is a small cloud platform: frontend servers keep their data in a
replicated key-value store, a master process watches the store's servers by
heartbeat, and a relay delivers mail from a queue file. This project models the
parts where the state is hard to keep right and proves what they keep.

**The store** (`Store`, `Wire`, `Disk`, `Recovery`, `Replicas`, `Cluster`,
`Answers`, `Groups`, `Runs`). A server has a table in memory, a disk file, a log of its
successful writes and a dead-server log that others append to while they take it
for dead. `Replicas.Replica` and `Groups.Group` are the imperative program;
their methods are proved against the value-level operations of `Recovery` and
`Cluster`, and the theorems are about those. Tables are compared through
`Lookup`, which reads an absent entry as the empty string: a conditional write
inserts an empty entry when it compares (kvstore.cc:339) and the disk file does
not give empty values back (kvstore.cc:521-523). The main results:

- replaying a log of successful writes onto any mixture of states from its own
  run rebuilds the final state (`Store.FuzzyReplay`), which makes recovery right from
  every crash between whole log lines, checkpoints included
  (`Recovery.CrashRebuilds`), and DISABLE and ENABLE on an uncleared table
  (`Recovery.EnableRebuilds`);
- exactly when the server is durable again after a crash inside a log line
  (`Recovery.TornStartExact`), exactly when the next acknowledged write is kept
  (`Recovery.WriteAfterTorn`), and what comes back when it is not
  (`Recovery.NextWriteLost`);
- over whole runs of client requests, any status messages, restarts of any server,
  the acting primary included, disabling, failovers and elections after a total
  outage, every server holds the leading table once it has replayed what it missed,
  the acting primary agrees with the group (`Runs.RunAgrees`), and the group answers
  as one map would (`Runs.RunRefinesMap`);
- what an answer means, for every line, server, state of the group and outcome of
  the connections: when a write is acknowledged (`Answers.PrimaryAnswer`,
  `Answers.RelayAnswer`), and what an OK says about the tables
  (`Answers.Acknowledged`);
- exactly which messages of the master keep the acting primary in agreement
  (`Runs.TellStep`) and make a new one that is (`Runs.ElectStep`), with a reachable
  state for each in which the source's unchecked message parts the tables
  (`Runs.EarlyRevival`, `Runs.EarlyPromotion`);
- a write of any kind that stopped half-way leaves the group in agreement exactly
  when it changes nothing or nobody had seen it (`Cluster.PartialWriteAgreement`),
  a PUT or DELETE is repaired by repeating it and a conditional write never is
  (`Cluster.RepeatRepairs`, `Cluster.StuckForever`), and a write a secondary
  acknowledged is lost exactly when the primary could not be
  reached and it would have changed something (`Cluster.RelayedExact`).

**The master** (`Status`, `Election`, `Masters`, `RoundRobin`, `Roles`,
`Failover`). `Masters.Master` updates the server lists, the recorded primaries,
the heartbeat times and the datagrams sent, in the loops of the source;
`Election` is what one group's record goes through, and `Roles` adds a FIFO
channel to every replica. The main results: the record is safe over every
history, over any heartbeats and passes a server is held alive exactly if its last
heartbeat was never more than 300 milliseconds old at a pass, one sweep ends in the
same record for every order of the hash map, the replicas agree with the master on
roles once their messages are delivered and strike off whoever is declared dead, the
primary knows who is alive until the first failover, and its successor until the
second exactly those that came back from the dead since,
and requests are handed out fairly.

**The codecs and the queue** (`Framing`, `UrlCodec`, `Multipart`, `MailQueue`,
`QueueLaws`, `Relay`). Printer and parser laws, each with the exact condition under which it
holds where it does not always hold, and the conservation of mail over any
arrivals and passes.

`Text` and `Numbers` hold the string searches, `getline`, `to_string` and `stoi`
that the programs use; `Optional` holds a value that may be missing.

Strings stand for byte strings. A method that the source leaves through a socket,
a clock or the iteration order of a hash map takes the outcome as a parameter
(`links`, `answers`, `stamp`, `now`) or is free to choose it.

## Where the code does less than its comments say

- A dead-server log holds attempts, not successes, so running it twice can give a
  different table: `Store.AttemptsAreNotIdempotent` has the log,
  `Recovery.InterruptedInitCanFail` the two starts, `Store.Repeatable` and
  `Recovery.InterruptedInit` say when it cannot.
- A log line cut short by a crash is replayed as it is, so a value nobody wrote can
  appear at once (`Recovery.TornAppendInvents`). It also stays in the log: a start
  that finds too few writes for a checkpoint appends the next line to it, and that
  acknowledged write is lost, even if only the newline was missing
  (`Recovery.NextWriteLost`, exactly when: `Recovery.WriteAfterTorn`).
- A mail with an overlong or marked line makes the next pass read, and then rewrite,
  something else (`Relay.RewriteExact`).
- A write whose last field is empty leaves a log line that is not read back
  (`Recovery.ServedExact`).
- The master declares servers alive, and promotes them, without knowing whether they
  have run what they missed (`Runs.EarlyRevival`, `Runs.EarlyPromotion`).
- A secondary that cannot reach its primary answers OK (`Cluster.RelayedExact`).
- A promoted server is not told which other servers are alive
  (`Failover.FailoverForgets`).
- `forwardToAllSecondaryServers` returns 1 when no socket can be created, so a
  write is acknowledged although later secondaries never see it
  (`Cluster.PartialWriteAgreement`).
- A CRLF cut by a buffer boundary is not recognised (`Framing.FramingExact`).
- A percent sign with a single digit takes the next character with it, whatever it is
  (`UrlCodec.DecodeDigitThen`).
- A file that is the last part of a form keeps the closing boundary
  (`Multipart.LastFileKeepsClosing`).
- In the queue parser the test for two newlines inside one line never holds, so a
  mail ends only where the next one starts.

## Model

| member | source | states |
|---|---|---|
| Store.ApplyEffect | backend/kvstore/kvstore.cc:260-454 | A local PUT, CPUT or DELETE changes exactly the addressed key as the key-wise rule says, and a failed CPUT changes no value although it inserts an entry. |
| Store.FailedApplySame | backend/kvstore/kvstore.cc:388-401 | A command that does not succeed leaves every lookup as it was. |
| Store.EntriesAfter | backend/kvstore/kvstore.cc:388-401 | Which entries exist afterwards, empty ones included, as a GET sees them: a PUT or a CPUT makes one even if the CPUT fails, and a DELETE removes one. |
| Store.SameApply | backend/kvstore/kvstore.cc:260-454 | Tables that agree on lookups give a command the same verdict and agree afterwards, so absent and empty entries cannot be told apart. |
| Store.FuzzyKeyBehind | backend/kvstore/kvstore.cc:548-560 | While the first part of a log is replayed, a key that started at a later value of the run holds that value or the value the run had there. |
| Store.FuzzyKeyAhead | backend/kvstore/kvstore.cc:548-560 | Once the replay has caught up with the run on a key it never leaves it again. |
| Store.FuzzyReplay | backend/kvstore/kvstore.cc:332-348 | Fuzzy checkpoint theorem: replaying a whole log of writes that all succeeded, onto a table in which every key was copied after some prefix of the run, gives the final state, chains and cycles of CPUTs included. |
| Store.PrefixReplay | backend/kvstore/helper.h:79-105 | The same for a checkpoint taken sharply after one prefix of the log. |
| Store.RepeatableReplay | backend/kvstore/kvstore.cc:472-499 | A log of attempts can be run again after any part of it if each of its keys is written outright by some PUT or DELETE, or no failed CPUT on it expects a value the key comes to hold later. |
| Store.RewrittenForgets | backend/kvstore/kvstore.cc:484-488 | After a log with a PUT or DELETE of a key the key's value does not depend on what it held before. |
| Store.AttemptsAreNotIdempotent | backend/kvstore/kvstore.cc:198-217 | A concrete log of attempted CPUTs for which a second replay gives another value, so the theorem cannot cover dead-server logs. |
| Wire.SplitKVStoreCommand | backend/kvstore/kvstore.cc:65-77 | Every parsed line has a verb, and no field holds a comma. |
| Wire.SplitCommand | backend/kvstore/kvstore.cc:65-77 | The parsing loop with its upper-casing loop computes the split that the round trips are about. |
| Text.ReadPieces | backend/kvstore/kvstore.cc:80-90 | A loop of getline reads exactly the pieces of the text, dropping an empty last one. |
| Wire.LineRoundTrip | backend/kvstore/kvstore.cc:65-77 | A printed write with comma-free fields decodes to itself exactly when its last field is not empty. |
| Wire.DecodeExact | backend/kvstore/kvstore.cc:260-470 | A line is taken for a given write exactly if it has that verb and those fields, whatever follows, and for a given GET exactly if it has its two fields and nothing else. |
| Wire.LineInAnyCase | backend/kvstore/kvstore.cc:66-69 | The verb may be written in any mixture of upper and lower case: the line is split as the upper-case one, and decodes to the write unless its last field is empty. |
| Wire.LocalAnswer | backend/kvstore/kvstore.cc:260-470 | On the own table OK is the answer exactly to a write that takes effect, a value exactly to a GET of an entry that exists, a listing exactly to LIST, and everything else gets an error. |
| Wire.ForwardRoundTrip | backend/kvstore/kvstore.cc:905-921 | A forwarded write is read back with its verb, all its fields, empty ones included, and its sender. |
| Wire.StripRoundTrip | backend/kvstore/kvstore.cc:205-216 | Cutting at the last ",PRIMARY" gives back the printed command whatever its fields hold. |
| Wire.ClientOrigin | backend/kvstore/kvstore.cc:905-921 | A well-formed client write is taken for a forwarded one exactly when it is a PUT or CPUT whose last field is one of the two tags. |
| Wire.Base64NeverForwarded | backend/kvstore/kvstore.cc:911-921 | A last field whose length is divisible by four, as base64 gives (section 4 of RFC 4648), is never taken for a tag. |
| Wire.DecodedCommaFree | backend/kvstore/kvstore.cc:65-77 | No line whatever decodes to a command with a comma in a field. |
| Wire.DecodedNewlineFree | backend/kvstore/kvstore.cc:548-560 | A log line decodes to a command without newlines. |
| Wire.LogAppend | backend/kvstore/helper.h:108-116 | Appending a write that stays on one line adds one line to a log, which is read as that write, or as no command if its last field is empty. |
| Wire.TornLine | backend/kvstore/kvstore.cc:65-77 | A printed write cut inside its last field is read as the write with that field cut; cut anywhere before, as no command. |
| Wire.GluedLine | backend/kvstore/helper.h:108-116 | A line appended behind a write cut inside its last field is read as that write with the new verb and first field run into its last field. |
| Disk.LoadEntryLine | backend/kvstore/helper.h:91-95 | A dumped entry loads as that entry, or as nothing if its value is empty. |
| Disk.LoadOtherLine | backend/kvstore/kvstore.cc:520-525 | A line of more or fewer than three fields loads nothing. |
| Disk.LoadStamp | backend/kvstore/helper.h:89-90 | The time stamp line loads nothing. |
| Disk.LoadDump | backend/kvstore/kvstore.cc:516-527 | Loading a dump of a table, written in any order, over any table: the non-empty dumped values win, everything else stays. |
| Disk.LoadClean | backend/kvstore/kvstore.cc:516-527 | Loading never brings a comma or newline into the table, so a later dump stays readable. |
| Recovery.AppendExact | backend/kvstore/kvstore.cc:93-98 | After a successful write is logged, disk file and log hold the new table exactly when its last field is not empty or it changes nothing. |
| Recovery.RenamedHolds | backend/kvstore/helper.h:98-101 | With the new disk file beside the complete old log the files still hold the table. |
| Recovery.TruncatedHolds | backend/kvstore/helper.h:98-101 | With the new disk file and an empty log the files hold the table. |
| Recovery.ServedDurable | backend/kvstore/kvstore.cc:922-928 | Serving a command whose line reads back keeps a server durable: its files hold its table, the counter covers the log and stays below the threshold, so the test for equality is never jumped over. |
| Recovery.ServedExact | backend/kvstore/kvstore.cc:922-928 | Serving any write that stays on one line keeps the server durable exactly when the write fails, its last field is not empty, it changes nothing, or the checkpoint follows at once. |
| Recovery.ReloadRebuilds | backend/kvstore/kvstore.cc:503-560 | Loading the disk file over a table whose keys are unwritten or final, then replaying the log, gives the table the files hold. |
| Recovery.InitializedRebuilds | backend/kvstore/kvstore.cc:503-582 | initialize on such a table gives the files' table with the dead-server log applied exactly once, a durable server and an empty dead-server log. |
| Recovery.InitializedFiles | backend/kvstore/kvstore.cc:503-582 | What initialize leaves in both files and in the counter, from any state: three counted writes make a checkpoint before the missed commands run, those that succeed are logged and counted, and three by then make a second one. |
| Recovery.BootRebuilds | backend/kvstore/kvstore.cc:503-582 | A new process on a durable server's files rebuilds its table with the missed commands applied. |
| Recovery.EnableRebuilds | backend/kvstore/kvstore.cc:770-782 | DISABLE then ENABLE, on a table and a counter that were never cleared, gives the old table with the missed commands applied once. |
| Recovery.CrashRebuilds | backend/kvstore/helper.h:93-101 | After a crash while a write is served, before or after its whole line is logged or anywhere in the checkpoint except between remove and rename, the next start rebuilds the table of the logged writes. |
| Recovery.TornReload | backend/kvstore/helper.h:108-116 | After a crash in the middle of the append the next start finds the table with the write as its cut line reads. |
| Recovery.TornAppendExact | backend/kvstore/helper.h:108-116 | The table right after that start, and nothing about later ones, is the one without or with the write exactly when the cut is before or behind the last field, or what is left changes nothing. |
| Recovery.TornStart | backend/kvstore/kvstore.cc:503-582 | The whole of initialize on a torn log gives the table with the write as its cut line reads and then the missed commands, once. |
| Recovery.TornStartExact | backend/kvstore/kvstore.cc:565-582 | The server is durable after that start if and only if the lines of the log, the cut one and the missed commands that succeed reach the checkpoint threshold, or the log was empty and the one line run together does what the writes did. |
| Recovery.WriteAfterTorn | backend/kvstore/kvstore.cc:922-928 | When they do not and nothing was missed, the next acknowledged write is kept if and only if the log was not empty before the cut, so that a checkpoint follows, or the two lines run together do what the writes did. |
| Recovery.LineHolds | backend/kvstore/kvstore.cc:548-560 | Exactly which table a disk file and a log of one line hold, whatever the line. |
| Recovery.GluedReload | backend/kvstore/helper.h:108-116 | A start on a log in which a line was appended to a cut one gives the table with the one command they run together to. |
| Recovery.NextWriteLost | backend/kvstore/helper.h:108-116 | Behind a PUT cut inside its value, or short of its newline only, the next write is lost: its key keeps its old value and the first key holds a value nobody wrote. |
| Recovery.TornInit | backend/kvstore/kvstore.cc:472-499 | After a crash while initialize logs a missed command the next start applies what was run, the command as its cut line reads, and the whole dead-server log again. |
| Recovery.TornAppendInvents | backend/kvstore/helper.h:108-116 | A concrete cut of PUT r,k,value after which the key holds "va". |
| Recovery.InitCrashHolds | backend/kvstore/kvstore.cc:472-582 | A crash in initialize between whole log lines or in one of its checkpoints, the window between remove and rename excepted, leaves files that hold the table with a prefix of the missed commands applied. |
| Recovery.InterruptedInit | backend/kvstore/kvstore.cc:472-499 | The start after that gives the prefix followed by the whole dead-server log, which is the log applied once if the log is repeatable or had been emptied. |
| Recovery.InterruptedInitCanFail | backend/kvstore/kvstore.cc:472-499 | For a two-line log of attempts, a start that ends before the log is emptied and a second start leave the key at a value the log applied once does not. |
| Recovery.InterruptedInitHappens | backend/kvstore/kvstore.cc:472-499 | Files exist from which those two starts go so. |
| Replicas.Replica.constructor | backend/kvstore/kvstore.cc:968-975 | A process starting on existing files ends in a state initialize allows from an empty table. |
| Replicas.PrintParts | backend/kvstore/kvstore.cc:262-292 | The text logged and forwarded for each kind of write, comma by comma. |
| Replicas.Replica.RunLocally | backend/kvstore/kvstore.cc:260-470 | The branches on the own table take the state to that of the specified command, logged only on success and not during replay, and answer OK exactly to a write that takes effect and a value exactly to a GET of an entry that exists. |
| Replicas.Replica.CheckpointTable | backend/kvstore/helper.h:79-105 | For every iteration order the disk file becomes a dump listing each entry once, and the log is emptied. |
| Replicas.Replica.CrashRecovery | backend/kvstore/kvstore.cc:472-499 | The missed commands run in order with logging, then the dead-server log is empty. |
| Replicas.Replica.LoadDiskFile | backend/kvstore/kvstore.cc:516-527 | The loop loads exactly the lines of three tokens over the table in memory. |
| Replicas.Replica.ReplayLog | backend/kvstore/kvstore.cc:548-563 | The log is replayed in order without being appended to, and each line is counted. |
| Replicas.Replica.Initialize | backend/kvstore/kvstore.cc:503-582 | The whole of initialize, with both checkpoint tests, is a transition the recovery theorems cover. |
| Replicas.Replica.CheckpointIfDue | backend/kvstore/kvstore.cc:924-928 | A checkpoint and a counter reset exactly when the counter equals the threshold. |
| Replicas.Replica.Enable | backend/kvstore/kvstore.cc:770-778 | An enabled server is left alone; a disabled one is enabled and initialized on the table it has. |
| Replicas.Replica.ReceiveStatus | backend/kvstore/kvstore.cc:608-697 | The process survives exactly the messages whose numbers parse, and then holds the role and list that `Status.StatusEntries` and `Status.NewSecondaryEntries` give entry by entry. |
| Replicas.Replica.Obey | backend/kvstore/kvstore.cc:616-697 | Own flags, own entry, revived, followed and dead entries are updated as the message says, the dead one in both roles, and everything else is kept. |
| Replicas.Replica.FollowPrimary | backend/kvstore/kvstore.cc:669-678 | The list loop flags the named primary, writes the own entry, and takes primaryInfo from the last match or keeps the old one. |
| Cluster.PartialFailure | backend/kvstore/kvstore.cc:167-219 | When forwarding a PUT, DELETE or CPUT fails at a live secondary, exactly the live ones before it have run it, exactly the dead ones before it have it in their dead-server logs, it has at most refused it itself, and nothing else has changed, the primary included. |
| Cluster.LiveTablesAgree | backend/kvstore/kvstore.cc:161-220 | Under the invariant every server the primary holds alive has the primary's table. |
| Cluster.WriteKeepsAgreement | backend/kvstore/kvstore.cc:280-454 | A write with reachable live secondaries keeps the replication invariant, failing CPUTs that are in dead-server logs included, is acknowledged exactly when it succeeds, and takes the primary's table to the specified one. |
| Cluster.CputAllOrNone | backend/kvstore/kvstore.cc:356-401 | A CPUT is acknowledged exactly when any live server's value matched; then all of them hold the new value, and otherwise none has changed. |
| Cluster.PartialWriteAgreement | backend/kvstore/kvstore.cc:161-220 | After any well-formed write whose loop stopped early the invariant holds if and only if the write changes no value, or the loop stopped for another reason than a missing socket before any other server had seen it. |
| Cluster.RepeatRepairs | backend/kvstore/kvstore.cc:280-296 | A PUT or DELETE that stopped anywhere, repeated once everybody held alive can be reached, is acknowledged and restores the agreement with the table the write should have given. |
| Cluster.PartialCputSticks | backend/kvstore/kvstore.cc:356-378 | A CPUT to another value that stopped behind a live secondary leaves that secondary with the new value and the primary with the old one. |
| Cluster.StuckForever | backend/kvstore/kvstore.cc:356-401 | Every repetition of it is refused and leaves the group so, over any number of repetitions and whoever can be reached. |
| Cluster.StuckDisagrees | backend/kvstore/kvstore.cc:356-401 | Such a group does not satisfy the replication invariant. |
| Cluster.RelayedExact | backend/kvstore/kvstore.cc:223-250 | A write sent on by a secondary is acknowledged exactly when the primary cannot be reached or accepts it, and takes effect exactly when the primary is reached and enabled or the write changes nothing. |
| Cluster.MissedMatters | backend/kvstore/kvstore.cc:198-217 | A server has the leading table exactly when what is in its dead-server log would change nothing there. |
| Answers.PrimaryAnswer | backend/kvstore/kvstore.cc:280-296 | Any line that is a write, at any enabled primary, for every outcome of the connections: it is answered OK exactly if the primary's table allows it and no live secondary is unreachable, disabled or holding another value than a CPUT expects, a socket that cannot be created apart; then the primary's table is the old one with the write, and otherwise the answer is an error and no value of the primary changes. |
| Answers.AcknowledgedEverywhere | backend/kvstore/kvstore.cc:161-220 | When a primary answers OK and no socket to a live secondary was missing, every other server it holds alive has written it and it is in the dead-server log of every one it holds dead, whatever the tables were before. |
| Answers.DisabledAnswer | backend/kvstore/kvstore.cc:887-894 | A disabled server answers every line with an error, and nothing in the group changes. |
| Answers.ForwardedAnswer | backend/kvstore/kvstore.cc:307-316 | A write with the primary's tag is run at the secondary it reaches and nowhere else, and answered OK exactly if it takes effect. |
| Answers.MisroutedAnswer | backend/kvstore/kvstore.cc:297-316 | A write with a secondary's tag that reaches no primary gets no answer and changes no table. |
| Answers.RelayAnswer | backend/kvstore/kvstore.cc:223-305 | A frontend's write at a secondary is answered OK exactly if nobody is reached at the primary's address, when no table changes, or an enabled primary reached there writes it; an error means that nothing changed in the primary's values. |
| Answers.OtherAnswer | backend/kvstore/kvstore.cc:316-470 | A line that is no write changes no table; a GET of an existing entry is answered with its value and everything but LIST with an error otherwise, too few parameters and unknown verbs included. |
| Answers.EmptyFieldAnswer | backend/kvstore/kvstore.cc:316-318 | A client's write with an empty last field is answered with an error by every enabled server and leaves the whole group as it was. |
| Answers.Acknowledged | backend/kvstore/kvstore.cc:860-940 | Whatever the line, the server and the group, a line answered OK is a write at an enabled server and has taken effect there or at the primary it was sent on to, unless nobody was reached at the primary's address. |
| Groups.Group.ApplyForwarded | backend/kvstore/kvstore.cc:307-317 | A secondary that gets a forwarded line serves the command that was printed, or refuses while disabled, and says OK exactly when it accepted it. |
| Groups.Group.ForwardTo | backend/kvstore/kvstore.cc:168-217 | One turn of the loop touches one server only: it runs the command, gets it logged as missed, or stops the loop. |
| Groups.Group.ForwardToAllSecondaryServers | backend/kvstore/kvstore.cc:161-220 | The loop has the specified effect on every server, leaves the caller alone and returns the specified verdict, true for a missing socket included. |
| Groups.Group.CoordinateWrite | backend/kvstore/kvstore.cc:280-296 | A write at the primary is the coordinated write that the agreement theorems and `Answers.PrimaryAnswer` are about. |
| Groups.Group.Relay | backend/kvstore/kvstore.cc:223-250 | A write at a secondary reaches whoever primaryInfo names, and a connection that fails is answered with OK. |
| Groups.Group.Request | backend/kvstore/kvstore.cc:896-950 | One line received by any server, disabled, forwarded or from a client, is a transition of the group about which the lemmas of `Answers` say what is answered and what has changed. |
| Groups.Group.RunOwn | backend/kvstore/kvstore.cc:307-470 | Commands that involve nobody else change only the server asked. |
| Runs.WriteStep | backend/kvstore/kvstore.cc:280-305 | A client's write is coordinated by the acting primary whichever server it arrives at, and the relaying server changes only by that. |
| Runs.TellKeeps | backend/kvstore/kvstore.cc:608-697 | No status message, whatever it says, changes what any server holds once it has replayed what it missed. |
| Runs.TellStep | backend/kvstore/kvstore.cc:608-697 | After a status message the acting primary agrees with the group if and only if the message makes nobody primary whom it holds alive, does not demote, bury or revive the primary itself, and declares alive only a server that is caught up. |
| Runs.RevivalStep | backend/kvstore/kvstore.cc:633-653 | A primary told that a server is alive forwards to it from then on, in agreement exactly if that server is caught up, and with the same table exactly if what it missed changes nothing. |
| Runs.ReinitKeeps | backend/kvstore/kvstore.cc:503-582 | A server that initializes again, after a restart or an ENABLE, the acting primary included, ends with the leading table and nothing missed. |
| Runs.ReinitStep | backend/kvstore/kvstore.cc:503-582 | In its old role, or as a secondary, it is then in step with the acting primary. |
| Runs.ElectStep | backend/kvstore/kvstore.cc:615-654 | A server made primary, after a failover or as the first one heard from, agrees with the group if and only if it missed nothing, flags no one else but the dead one and holds alive only servers that are caught up; it has the table exactly if what it missed changes nothing. |
| Runs.RestartedElected | backend/kvstore/master.cc:514-524 | Any restarted server, the acting primary too, can be elected whoever else is named dead. |
| Runs.EarlyRevival | backend/kvstore/master.cc:526-529 | In a state with one write in a live server's dead-server log, the master's message that it is alive leaves the two live servers with different tables. |
| Runs.EarlyPromotion | backend/kvstore/master.cc:279-288 | In the same state the promotion after the primary's death loses an acknowledged value. |
| Runs.OneIsBehind | backend/kvstore/kvstore.cc:198-217 | That state is reached in two steps of a run from two new servers: the first is elected, and acknowledges PUT r,k,v. |
| Runs.StepRefines | backend/kvstore/kvstore.cc:256-470 | Each step keeps what is kept, answers as a single map does and follows that map. |
| Runs.RunAgrees | backend/kvstore/kvstore.cc:161-499 | In every state of every run each server holds the leading table once it has replayed what it missed, an acting primary satisfies the replication invariant, and the leading table is the map the writes have built. |
| Runs.RunRefinesMap | backend/kvstore/kvstore.cc:280-454 | Every reply of every run, writes through the acting primary and reads at any server that has missed nothing, as all live ones have, is the one a single map would give, absent and empty values alike; no other line is acknowledged, and a disabled server answers every line with an error. |
| Runs.RunDurable | backend/kvstore/kvstore.cc:925-928 | Along every run each server's counter is at most two and at least the length of its log, and a restart from its files rebuilds its table with what it missed. |
| Runs.BlankKept | backend/kvstore/kvstore.cc:968-975 | A group of blank servers nobody has heard from is a state runs start in, with the empty map. |
| Status.StatusRoundTrip | backend/kvstore/master.cc:160-196 | receiveStatus decodes exactly what sendIsPrimary printed, with and without a dead server. |
| Status.NewSecondaryRoundTrip | backend/kvstore/master.cc:199-226 | receiveStatus decodes exactly what sendNewSecondaryInfoToPrimary printed. |
| Status.StatusEntries | backend/kvstore/kvstore.cc:615-697 | After a letter of sendIsPrimary, entry by entry: the dead server is dead and unflagged in both roles, the receiver is alive with its role, the named primary is flagged at a secondary, and every other mark is as it was. |
| Status.StatusNames | backend/kvstore/kvstore.cc:669-678 | A secondary remembers the named primary if its list has it, a primary the one it had. |
| Status.NewSecondaryEntries | backend/kvstore/kvstore.cc:615-653 | After a letter of sendNewSecondaryInfoToPrimary the new secondary is alive and unflagged, the receiver is primary, and every other mark is as it was. |
| Status.DeadPortUnread | backend/kvstore/kvstore.cc:682-686 | A message whose dead server's port is no number, or too large, ends the process. |
| Numbers.StoiRoundTrip | backend/kvstore/kvstore.cc:643-692 | stoi reads back what to_string printed, whatever follows the digits. |
| Numbers.StoiPrinted | backend/kvstore/kvstore.cc:643-692 | On every integer that was printed, whatever non-digit follows, stoi gives the integer, or throws if it is outside int. |
| Election.BeatSafe | backend/kvstore/master.cc:501-531 | A heartbeat keeps the group's record safe, leaves the sender alive and never replaces a recorded primary. |
| Election.BurySafe | backend/kvstore/master.cc:247-297 | A death keeps the record safe and changes the recorded primary exactly if it is the dead server. |
| Election.Successor | backend/kvstore/master.cc:269-289 | When the primary dies the first live server of the list takes over, nobody does exactly if there is none, and no other entry changes. |
| Election.DeathLetters | backend/kvstore/master.cc:269-297 | Who is written to when a server dies, and what: after a failover the successor and everybody behind it, dead or alive, else exactly the live ones, each with its role, the primary and the dead server. |
| Election.RevivalLetters | backend/kvstore/master.cc:501-529 | A heartbeat of a live server sends nothing; one of a dead server tells it its role and the primary, tells the primary of it if that is another server, and nobody else. |
| Election.HistorySafe | backend/kvstore/master.cc:228-304 | In every state of every history exactly one server is flagged if any is alive and none otherwise, it is alive and recorded, and a recorded primary is replaced only by the step that declares it dead. |
| Election.SweptMembers | backend/kvstore/master.cc:269-289 | The order-free outcome of a sweep is safe, has exactly the fallen members dead and its first survivor unchanged. |
| Election.SweptStep | backend/kvstore/master.cc:254-297 | One more death leads from the outcome for a set of dead members to that for the larger set, also when the promoted successor itself expires. |
| Election.SweepConfluence | backend/kvstore/master.cc:234-302 | Declaring expired members dead one by one in any order ends in the order-free outcome. |
| Election.OrderDoesNotMatter | backend/kvstore/master.cc:234-302 | Two orders of the same expired members end in the same record. |
| Masters.KeyRoundTrip | backend/kvstore/master.cc:237-245 | The sweep parses out of a heartbeat key the group and address that recvHeartbeat put into it. |
| Masters.Master.constructor | backend/kvstore/master.cc:544-560 | A new master has every configured server dead and unflagged, no heartbeat and a valid state. |
| Masters.Master.Revive | backend/kvstore/master.cc:510-529 | A server heard from again is recorded as specified and exactly the specified letters go out. |
| Masters.Master.Hear | backend/kvstore/master.cc:501-531 | The loop over the group acts once, on the server with the sender's port. |
| Masters.Master.RecvHeartbeat | backend/kvstore/master.cc:486-536 | A heartbeat keeps the state valid, a server being alive exactly when it has a heartbeat entry, changes only its own group and stamps the entry. |
| Masters.Master.MarkServerDead | backend/kvstore/master.cc:254-267 | The marking loop buries the one server with that address and drops the recorded primary exactly if it was that server. |
| Masters.Master.PromoteFirstAlive | backend/kvstore/master.cc:269-289 | The first live member is flagged and recorded, everybody behind it is told, and no default record is inserted. |
| Masters.Master.TellAlive | backend/kvstore/master.cc:290-297 | After a secondary's death exactly the live members are told, with the recorded primary. |
| Masters.Master.DeclareDead | backend/kvstore/master.cc:247-297 | The body of the sweep for one server has the specified outcome and mail and leaves other groups alone. |
| Masters.Master.CheckHeartbeats | backend/kvstore/master.cc:228-304 | One pass, for every order of the hash map, removes exactly the expired heartbeats, those that `Masters.PassKeepsTheYoung` says in milliseconds, gives each group the order-free outcome for its expired members and sends each member the letters of the order taken. |
| Masters.PassKeepsTheYoung | backend/kvstore/master.cc:234-304 | After one pass a server is alive, and has the heartbeat entry it had, exactly if that entry is at most 300 milliseconds old; otherwise it is dead and has none. |
| Masters.AliveIfHeard | backend/kvstore/master.cc:228-535 | Over any sequence of heartbeats and passes a server is held alive exactly if it has been heard from and no pass since its last heartbeat came more than 300 milliseconds after it. |
| Masters.PunctualLives | backend/kvstore/master.cc:236-236 | A server heard from within 300 milliseconds before every pass is never declared dead. |
| Masters.SilentDies | backend/kvstore/master.cc:236-236 | A server not heard from for longer, or never, is dead after the next pass. |
| RoundRobin.ChoicesGoRound | backend/kvstore/master.cc:106-128 | Consecutive requests hand out the live servers in ring order from the starting position. |
| RoundRobin.Fairness | backend/kvstore/master.cc:106-134 | With k servers alive, any k requests in a row hand out each of them exactly once, from any position. |
| RoundRobin.NoneOnlyIfNoneAlive | backend/kvstore/master.cc:130-134 | No server is reported exactly when none is alive. |
| RoundRobin.Dispatcher.GetServer | backend/kvstore/master.cc:106-134 | The do-while ends, stays in range, finds the specified choice, and moves the position past it or leaves it. |
| Roles.StatusTells | backend/kvstore/kvstore.cc:608-697 | Receiving a status letter makes a replica's flag and primaryInfo those of the master's record. |
| Roles.DrainFirst | backend/kvstore/kvstore.cc:601-612 | Taking the oldest message first leads to the same knowledge as draining the channel. |
| Roles.MoveKeepsAgreed | backend/kvstore/master.cc:228-535 | Heartbeats, deaths, deliveries, crashes and restarts keep the agreement on roles. |
| Roles.RoleAgreement | backend/kvstore/master.cc:160-226 | In every reachable state, once the messages under way to a running server held alive are delivered, its isPrimary is the master's flag, and a secondary's primaryInfo names the recorded primary. |
| Failover.PrimaryKnowsTheLiving | backend/kvstore/master.cc:290-297 | From a fresh start until the first failover the primary will believe alive exactly the servers the master does. |
| Failover.FailoverForgets | backend/kvstore/master.cc:279-288 | Right after the first failover the successor will hold everybody else dead, so it knows the living exactly when it is alone. |
| Failover.SuccessorKnows | backend/kvstore/master.cc:505-529 | From the first failover to the second the running successor will believe alive exactly the members heard from again after having been dead, and not expired since; those alive all along it never learns of. |
| Failover.DeadAreStruckOff | backend/kvstore/kvstore.cc:681-696 | When a server is declared dead, every other running server that the master holds alive will, once its messages are delivered, hold it dead and unflagged, primary or not, and in every later state until it is heard from again. |
| Framing.FeedIsSplit | backend/kvstore/kvstore.cc:896-950 | One buffer fed behind a carried-over command is the leftmost CRLF split with that command in front. |
| Framing.FramingExact | backend/kvstore/kvstore.cc:876-950 | The commands extracted over all buffers, and the text left over, are those of the whole stream if and only if no buffer boundary falls inside a CRLF. |
| Framing.Connection.Read | backend/kvstore/kvstore.cc:896-950 | The loop over one buffer completes the specified commands and carries the specified rest. |
| QueueLaws.OneMailSurvives | smtp/smtpec.cc:49-108 | A mail written to the queue reads back as itself if and only if its addresses hold no newline, NUL or closing bracket, its header lines fit, its recipient lacks the marker, and its content is empty or newline-ended with lines that fit, hold no NUL and avoid both markers. |
| QueueLaws.QueueSurvives | smtp/smtpec.cc:49-108 | A whole queue reads back as its mails if and only if every one of them is good in that sense and unsent. |
| QueueLaws.LineFits | smtp/smtpec.cc:49-62 | A line of up to 4095 characters behind a good mail belongs to that mail, after any readable file. |
| QueueLaws.LongLineStops | smtp/smtpec.cc:51-62 | At a line of 4096 or more characters reading ends: the mails up to there are read without it, and nothing behind it is. |
| QueueLaws.FieldIs | smtp/smtpec.cc:77-84 | An address reaches to the first closing bracket behind its marker; with a bracket before the marker, or none at all, it is the whole rest of the line. |
| QueueLaws.NoMailIn | smtp/smtpec.cc:61-92 | A file without a From line holds no mail. |
| MailQueue.ParseAppend | smtp/smtpec.cc:49-108 | Appending a good mail to any readable queue file appends it to the mails read and keeps the file readable. |
| MailQueue.TakeMail | smtp/smtpec.cc:61-99 | Reading a good mail's lines saves the mail before it and ends holding this one. |
| MailQueue.UnlinesLines | smtp/smtpec.cc:87-91 | Putting the newline back after each line restores a newline-ended content. |
| Relay.Sender.BuildEmailInfo | smtp/smtpec.cc:49-108 | The reading loop, its stop at a line that does not fit included, adds the mails the parser specification finds. |
| Relay.Sender.TryServers | smtp/smtpec.cc:314-339 | A mail is sent exactly when some server in turn accepts it, and no server is tried after that. |
| Relay.Sender.Deliver | smtp/smtpec.cc:303-340 | Exactly the accepted mails are marked and handed over, in order. |
| Relay.Sender.Rewrite | smtp/smtpec.cc:341-358 | The file becomes the texts of exactly the unsent mails, in order. |
| Relay.Sender.Run | smtp/smtpec.cc:301-363 | One run of the program is one pass of the model, an empty queue leaving the file alone. |
| Relay.RewriteExact | smtp/smtpec.cc:349-358 | Reading the rewritten queue gives the mails that were not taken, in order, if and only if every one of them is sound. |
| Relay.Conservation | smtp/smtpec.cc:303-354 | Over any arrivals of sound mails and passes with any outcomes, every mail is delivered exactly once or still waiting, the file reads as the waiting mails in order of arrival, and nothing else was delivered. |
| UrlCodec.EncodeShape | frontend/loginHelper.cc:22-40 | Encoded text consists of unreserved characters and upper-case percent triplets (sections 2.1 and 2.3 of RFC 3986). |
| UrlCodec.DecodeEncode | frontend/loginHelper.cc:70-93 | Decoding undoes encoding on every byte string. |
| UrlCodec.EncodeOne | frontend/loginHelper.cc:22-40 | Each byte is encoded by itself: letters, digits and the marks -_.~ stay, every other byte becomes a percent sign and its two upper-case digits. |
| UrlCodec.DecodeAnyWriting | frontend/loginHelper.cc:70-93 | However each byte is written, as itself, as a percent triplet with digits of either case, or as a plus sign for a blank, decoding gives the bytes. |
| UrlCodec.DecodeDigitThen | frontend/loginHelper.cc:75-81 | A percent sign with one digit and something else takes both characters and gives the digit's byte. |
| UrlCodec.DecodeDigitBehind | frontend/loginHelper.cc:75-81 | So it does with a blank or a sign before the digit, a minus sign giving the byte 256 less the digit. |
| UrlCodec.DecodeBadPercent | frontend/loginHelper.cc:75-82 | A percent sign with no number behind it is dropped, and nothing else is. |
| UrlCodec.EncodeInjective | frontend/loginHelper.cc:22-40 | Different byte strings have different encodings. |
| UrlCodec.QueryRoundTrip | frontend/loginHelper.cc:97-112 | Parsing encoded pairs joined by = and & gives the map of the pairs, a later pair with the same key winning. |
| UrlCodec.BarePair | frontend/loginHelper.cc:103-108 | A pair without an equals sign is key and value alike. |
| UrlCodec.UrlEncodeLoop | frontend/loginHelper.cc:22-40 | The encoding loop computes the encoding of the round trip. |
| UrlCodec.DecodeURIComponent | frontend/loginHelper.cc:70-93 | The decoding loop, with its skip of two positions and its dropped percent sign, computes the decoding of the round trip on every input. |
| UrlCodec.ParseQueryLoop | frontend/loginHelper.cc:97-112 | The loop over the pairs computes the map of the round trip. |
| Multipart.PartsAreFree | frontend/loginHelper.cc:115-134 | For any non-empty delimiter no part holds it. |
| Multipart.Rejoin | frontend/loginHelper.cc:115-134 | Joining the parts restores the input, short of one delimiter exactly when the scan stops right after a match. |
| Multipart.SplitLoop | frontend/loginHelper.cc:115-134 | The loop ends and collects the specified parts. |
| Multipart.FirstAfter | frontend/loginHelper.cc:115-134 | A delimiter line that does not occur in a part is first found right behind it, so a part never ends early. |
| Multipart.BehindHeaders | frontend/loginHelper.cc:161-176 | Headers free of the delimiter do not shift where it is first found behind them. |
| Multipart.FileNameIs | frontend/loginHelper.cc:184-186 | A quoted file name is recovered up to its closing quote. |
| Multipart.UnquotedName | frontend/loginHelper.cc:184-186 | A name without quotes is taken from the tenth character of the headers on. |
| Multipart.BoundaryIs | frontend/loginHelper.cc:137-149 | A boundary parameter at the end of the header value gives the same boundary with and without quotes. |
| Multipart.BoundaryMissing | frontend/loginHelper.cc:139-147 | Without a boundary parameter the boundary is empty; an empty value or a lone quote, and nothing else, fails. |
| Multipart.ExtractBoundaryText | frontend/loginHelper.cc:137-149 | The erasing of the quotes computes the specified boundary, failing on an empty value and on a lone quote. |
| Multipart.FindFileName | frontend/loginHelper.cc:184-186 | The search for the quotes computes the specified name, wrapped search results included. |
| Multipart.ParseFormLoop | frontend/loginHelper.cc:152-194 | The loop over the parts finds the first file, and fails where the content range would be negative. |
| Multipart.SkipEarlier | frontend/loginHelper.cc:163-173 | Parts without a file do not change what is found after them. |
| Multipart.FileRecovered | frontend/loginHelper.cc:152-194 | A file followed by another part is recovered with its name if and only if the file and its line end do not hold the delimiter. |
| Multipart.FormRecovered | frontend/loginHelper.cc:137-194 | Parsing a whole form gives the uploaded file and its literal name if and only if the file and its line end do not hold the delimiter, for a plain or quoted boundary and any earlier parts without a file. |
| Multipart.UploadBehindFields | frontend/loginHelper.cc:152-194 | The same for earlier parts said outright: without a blank line, or with headers that name no file and any value. |
| Multipart.ShortPartFails | frontend/loginHelper.cc:175-176 | A form whose first part has less than two characters behind its headers fails, file or not. |
| Multipart.LastFileKeepsClosing | frontend/loginHelper.cc:155-176 | A file that is the last part comes back with the closing boundary line at its end. |
| Multipart.LastFileNeverRecovered | frontend/loginHelper.cc:155-176 | No file that is the last part is ever recovered, whatever it holds. |

## Left out

- Sockets, threads, signals, the clock, file descriptors and the byte counting of `readFromSocket`: outcomes of links, times and orders are parameters.
- Two writes handled at the same time by one primary: nothing locks the table, so a run handles one request after the other.
- A crash between `remove` and `rename` (helper.h:99-100): the disk file is gone and no recovery claim holds.
- Runs.RunAgrees: connections to live secondaries and to the primary succeed in these runs; when they do not, `Cluster.PartialFailure`, `Cluster.PartialWriteAgreement` and `Cluster.RelayedExact` say what one write does. While no server acts in agreement with the group a run takes no writes.
- Recovery.CrashRebuilds: a line cut in the middle is not one of its crash points, see `Recovery.TornStart` and `Recovery.TornStartExact`.
- Recovery.InitCrashHolds: a line cut while recovery logs a missed command is not one of its crash points, see `Recovery.TornInit`.
- Runs.RunDurable: a crash in the middle of a write is no step of a run; what one server's files then hold is `Recovery.CrashRebuilds` and `Recovery.TornStart`.
- Recovery.InterruptedInit: repeatability of the dead-server log is sufficient and not necessary, because a CPUT that fires wrongly in the second run can be undone by later CPUTs of the same log.
- Recovery.ServedExact: fields with a newline, which no base64 value holds, split a log line and are left out here and in `Recovery.AppendExact`.
- Recovery.ServedDurable: a write with an empty last field is `Recovery.ServedExact`.
- Cluster.WriteKeepsAgreement: writes with an empty last field or a newline in a field lose their line in a log, for one server as `Recovery.ServedExact` says, and are left out here.
- Cluster.PartialFailure: not stated where a server forwarded to takes itself for primary, because it would forward the command in turn.
- Groups.Group.ApplyForwarded: a receiver that takes itself for primary would forward the command in turn, to any depth, so the calls below are not made there.
- Groups.Group.ForwardTo: not called where a live entry's server takes itself for primary, as above.
- Groups.Group.ForwardToAllSecondaryServers: not called where a server it would forward to takes itself for primary, as above.
- Groups.Group.CoordinateWrite: not called where a server it would forward to takes itself for primary, as above.
- Groups.Group.Relay: not called where the named primary would forward to a server that takes itself for primary, as above.
- Groups.Group.Request: not called where a server that would be forwarded to takes itself for primary, as above.
- Masters.Master.Hear: a heartbeat with a port no server of the group has leaves the source with an entry whose numbers were never set, so it is not modelled.
- Masters.Master.RecvHeartbeat: heartbeats of unknown groups or ports are left out for the same reason.
- A re-enabled old primary keeps its flag until its SECONDARY message arrives; agreement on roles is claimed after delivery only.
- Roles.RoleAgreement: handlers are atomic, heartbeats come from configured servers with distinct addresses, and a server is started again only after the master has declared it dead.
- The output of LIST, admin console commands other than ENABLE and DISABLE, and the bytes a disabled connection throws away.
- An empty `msg` at a secondary that gets a write tagged SECONDARY: modelled as a silent reply, the sender's wait for it as an error.
- RoundRobin.Dispatcher.GetServer: an empty group, on which the source divides by zero, and the choice of a group by first character are not modelled.
- The text of a heartbeat datagram, the configuration file and unknown senders.
- Relay.Conservation: a relay that dies between a delivery and the rewriting, or cannot reopen the file after emptying it, is not modelled; the former delivers again, the latter loses mail.
- DNS and MX lookup, the SMTP dialogue, OpenSSL: outcomes are parameters.
- `smtp/smtpServer.cc`, HTML, cookies, HTTP requests, drive operations, the load balancer: simple or plumbing.
- Multipart.ExtractBoundaryText: `front()` of an empty boundary is undefined in the source and counted as a failure.
