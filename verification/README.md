# A model of the ISC DHCP client core

This project models the parts of the ISC DHCP client whose correctness spans many functions, and proves
what they promise for all inputs and all runs. `dafny verify dfyconfig.toml` checks everything.

Each component has specification functions on values, lemmas about them, and methods or classes that do what
the C code does (loops, in-place updates, linked nodes, carries) and are proved equal to the specification.

| file | models |
|---|---|
| `Common.dfy` | optional values, times of day, sequences |
| `Bits.dfy`, `Address.dfy` | numbers, bit operations and addresses as byte strings |
| `Cidr.dfy` | `range2cidr`: exact, disjoint, minimal cover |
| `Subnet.dfy` | subnet, host and broadcast arithmetic, prefix masks |
| `Ddns.dfy` | the four forward-update messages against an RFC 2136 server, any number of updaters |
| `DdnsBlocks.dfy` | the life of DDNS control blocks |
| `LeaseTimes.dfy` | lease, T1 and T2 arithmetic of a DHCPACK (section 4.4.5 of RFC 2131) |
| `Dhcp4.dfy` | the DHCPv4 client as a state machine: timer discipline and lease expiry over whole runs |
| `Dhcp4Moves.dfy` | its moves between states, where its leases come from, its messages and its time limits |
| `LeaseRotation.dfy` | `state_panic` on its linked list |
| `Dhclient.dfy` | the DHCPv4 handlers in place, refining the state machine |
| `LeaseFile.dfy` | loading and rewriting the lease database |
| `Heap.dfy` | the priority heap with its index callback |
| `TimerQueue.dfy` | the timer list |
| `Retransmit6.dfy` | DHCPv6 retransmission (section 14 of RFC 3315) |
| `Lease6.dfy`, `Select6.dfy` | DHCPv6 lease scores, merging and server selection (section 17.1.3 of RFC 3315) |
| `Expire6.dfy` | DHCPv6 depreference, expiry and refresh scheduling |
| `Life6.dfy` | the life of a DHCPv6 lease: timers, Replies and the clock over whole runs |
| `Dhcp4o6.dfy` | the POLL, START and STOP handshake of DHCPv4 over DHCPv6, and the forwarding of queries |

Random numbers, clock values, results of scripts and memory allocation, and results of calls into other
libraries are parameters, so every statement holds for all of them.

## What turned out to need a condition

- A DHCPACK without a lease time leaves REQUESTING, RENEWING or REBOOTING with a `state_init` timer
  (`Dhcp4.AckDisciplineIff`); a second DHCPACK then leaves two timers (`Dhcp4.TwoTimersAfterLeaselessAck`).
- A DHCPNAK to a client that requests its first lease is ignored: it counts exactly if there is an active lease
  (`Dhcp4Moves.NakTakesLease`).
- A server that sends T2 beyond the lease can make the client use it past its end: exactly with the options of
  `LeaseTimes.RenewalPastExpiryIff` and `Dhcp4.AckInTimeIff`, in the runs of `Dhcp4.OverstaysInRun`.
- Conflict override, and updaters with different DHCID record types, delete other clients' addresses
  (`Ddns.OverrideTakesOver`, `Ddns.MixedStylesTakeOver`), exactly under the conditions of `Ddns.OverrideSafeIff`,
  `Ddns.Add2SafeIff` and `Ddns.Rem1SafeIff`. A name shared by two clients through DDNS_INCLUDE_RRSET can never be
  cleaned up (`Ddns.SharedNameIsStuck`, `Ddns.StuckForever`).
- Without DDNS_INCLUDE_RRSET an update to a new address leaves the old one in place, since the client follows a
  YXRRSET with the second message but not a YXDOMAIN (`Ddns.UpdateReplacesIff`).
- A DDNS update whose `ddns_modify_fwd` itself fails with a timeout loses its control block
  (`DdnsBlocks.StepInvIff`, `DdnsBlocks.FalseStartLoses`).
- A lease that lacks a required option scores 0 and makes the selection depend on the order of arrival
  (`Select6.IndependentIff`, `Select6.ArrivalCanMatter`).
- A static lease for the active address would leave that address twice (`LeaseFile.ParseStaticDistinctIff`). The
  client does not receive that input: it reads its configuration, which holds the static leases, before the lease
  file (client/dhclient.c:709-712 and 979-982). That order is what `LeaseFile.LoadDistinct` needs.
- An IA with only one of T1 and T2, or with T1 after T2, can be rebound before it is renewed
  (`Expire6.RebindComesFirst`); `Expire6.RenewFirstIff` and `Expire6.RenewBeforeRebindIff` say exactly when.
- A DHCPv6 lease whose addresses all end before its renewal or rebinding leaves that timer behind, and it takes the
  client from INIT to RENEWING or REBINDING without a lease (`Life6.NoStrayIff`, `Life6.StrayRun`).
- The default renewal time, which is meant to replace infinite lifetimes, is used for them only if the IA starts at 0
  (`Expire6.InfiniteLife`).
- A DHCPv6 wake-up that comes early is fatal exactly if RT was cut to 0 (`Retransmit6.FatalIff`).
- A STOP that is lost, or overtaken by a START, leaves the DHCPv4 side of DHCPv4 over DHCPv6 started without a
  partner, and it does not poll (`Dhcp4o6.ToldIff`, `Dhcp4o6.DeafForever`, `Dhcp4o6.LostStopDeafens`).
- A 64-bit sum of clock and interval that overflows is replaced by a time before the clock
  (`LeaseTimes.AddClockForwardIff`).
- `isc_heap_insert` stores past its array with a size increment of 1, and keeps `last` incremented without
  memory (`Heap.PriorityHeap.Insert`).
- A stored timer deadline mixes clock seconds with the microseconds of the interval
  (`TimerQueue.DeadlineExactIff`).

## Model

| member | source | states |
|---|---|---|
| Address.AddrCmp | common/inet.c:210-228 | the byte loop returns the sign of the difference of the two addresses as numbers, and 0 for unequal lengths |
| Address.AddrOr | common/inet.c:237-257 | bytewise or, with the flag set exactly if the result is not zero; unequal lengths give neither |
| Address.AddrAnd | common/inet.c:266-286 | bytewise and, with the flag set exactly if the result is not zero; unequal lengths give neither |
| Address.OrAndValues | common/inet.c:237-286 | as numbers, the or and the and of two addresses add up to the sum of the addresses |
| Cidr.Range2Cidr | common/inet.c:359-497 | for every pair of addresses in either order: an argument error exactly for the cases that the code checks; a list exactly if there is memory for it; the list consists of aligned, pairwise disjoint blocks that cover the range exactly, and no set of aligned blocks that covers the range is smaller |
| Cidr.Decompose | common/inet.c:424-497 | the loop terminates on every ordered range, the whole address space and ranges up to all-ones included, with a sound list |
| Cidr.GreedyIsFewest | common/inet.c:359-497 | no finite set of aligned blocks that covers exactly the range has fewer blocks than the greedy list |
| Cidr.GreedyCovers | common/inet.c:359-497 | the union of the greedy blocks is exactly the range |
| Cidr.GreedyDisjoint | common/inet.c:359-497 | the greedy blocks are pairwise disjoint |
| Cidr.GreedyAligned | common/inet.c:359-497 | every greedy block starts at a multiple of its size |
| Cidr.FirstIsLargest | common/inet.c:428-444 | no aligned block that starts at the current address within the range is larger than the chosen one |
| Cidr.NestedOrApart | common/inet.c:359-497 | of two aligned blocks, the smaller one lies inside the larger or apart from it |
| Cidr.GreedyIsSound | common/inet.c:445-497 | a list whose reversal is the greedy one is aligned, disjoint, an exact cover and minimal |
| Cidr.TooBig | common/inet.c:438-444 | a block may grow exactly if a bit is left, the address is aligned for it and it ends within the range |
| Cidr.SetMaskBit | common/inet.c:429-436 | setting the next bit turns the mask of the low bits into the mask of one more bit |
| Cidr.NextAddr | common/inet.c:462-484 | the address after the block, as a number, or the report that the address space is exhausted |
| Cidr.AddAt | common/inet.c:467-477 | the carry loop adds at a byte position, and reports exactly the sums that leave the address space; the byte before the first one is not read |
| Subnet.SubnetNumber | common/inet.c:34-57 | bytewise and with the mask; for a prefix mask, the address rounded down to a multiple of the subnet size |
| Subnet.IpAddr | common/inet.c:63-106 | for prefix masks with at most 32 host bits: the sum of subnet and host number, and the empty address exactly if the host number does not fit |
| Subnet.BroadcastAddr | common/inet.c:112-136 | the subnet with all host bits set; for a prefix mask, subnet + 2^hostbits - 1 |
| Subnet.HostAddr | common/inet.c:138-164 | the low 32 bits of the host part; for a prefix mask, the remainder of the address by the subnet size |
| Subnet.SplitAndCombine | common/inet.c:34-164 | ip_addr of subnet_number and host_addr gives the address back |
| Subnet.CombineAndSplit | common/inet.c:34-164 | subnet_number and host_addr of ip_addr give the subnet and the host number back |
| Subnet.IsCidrMaskValid | common/inet.c:302-346 | true exactly if the prefix length is in range and 2^(8*len-bits) divides the address |
| Subnet.RangeNetsValid | common/inet.c:302-497 | every block of range2cidr meets what is_cidr_mask_valid checks |
| Subnet.MaskWidth | common/inet.c:564-573 | the width loop ends at a width that is never negative, right after the lowest one bit of the mask |
| Subnet.Narrow | common/inet.c:564-573 | one round keeps all bits below the width zero, stops exactly at a one bit and never steps below zero |
| Subnet.WidthOfPrefix | common/inet.c:564-576 | on a prefix mask that width is the prefix length |
| Ddns.BuildAdd1 | common/dns.c:1727-1776 | the prerequisites and updates of the first add message, with and without DDNS_INCLUDE_RRSET |
| Ddns.BuildAdd2 | common/dns.c:1806-1875 | the prerequisites and updates of the second add message, with and without conflict override |
| Ddns.BuildRem1 | common/dns.c:1899-1931 | the prerequisites and updates of the first remove message |
| Ddns.BuildRem2 | common/dns.c:1946-1985 | the prerequisites and updates of the second remove message |
| Ddns.Add1Effect | common/dns.c:1727-1776 | under RFC 2136 the message is accepted exactly on an unused name (or address type), and adds the address and the DHCID |
| Ddns.Add2Effect | common/dns.c:1806-1875 | without override it is accepted exactly if the DHCID RRset is the updater's own DHCID, and replaces the addresses of its type |
| Ddns.Rem1Effect | common/dns.c:1899-1931 | it is accepted exactly if the DHCID RRset is the updater's own DHCID, and removes that one address |
| Ddns.Rem2Effect | common/dns.c:1946-1985 | it is accepted exactly if no address of either type is left, and removes the updater's own DHCID only |
| Ddns.StepSafe | common/dns.c:1727-1985 | every message without override keeps "the owner of every address record is in the DHCID RRset" and loses no other client's record |
| Ddns.RunOwned | common/dns.c:1727-1985 | the ownership invariant holds after every interleaving of messages of any number of updaters on any names |
| Ddns.RunKeepsOthers | common/dns.c:1727-1985 | no message of such an interleaving deletes an address record that another client added |
| Ddns.RecordSurvives | common/dns.c:1727-1985 | a client's address record survives every interleaving of other clients' messages |
| Ddns.StepExclusive | common/dns.c:1727-1985 | without DDNS_INCLUDE_RRSET a message keeps every name in the hands of one client |
| Ddns.RunExclusive | common/dns.c:1727-1985 | so does every interleaving of such messages |
| Ddns.StepStuck | common/dns.c:1727-1985 | on a name with two DHCIDs and an address, no message without override deletes anything |
| Ddns.StuckForever | common/dns.c:1727-1985 | nothing at such a name is ever deleted again, in any interleaving |
| Ddns.SharedNameIsStuck | common/dns.c:1727-1776 | two clients that each claim one address family of a name bring it into that state |
| Ddns.UpdateThenRemove | common/dns.c:1727-1985 | on an unused name, an update followed by the removal of the address leaves no record |
| Ddns.UpdateReplacesIff | common/dns.c:1727-1875 | updating to another address leaves exactly what an update to that address alone would, if and only if the updates carry DDNS_INCLUDE_RRSET or the address is the same |
| Ddns.OverrideSafeIff | common/dns.c:1806-1875 | with conflict override, the second add message spares other clients' records exactly if none of them has one of that type |
| Ddns.OverrideTakesOver | common/dns.c:1806-1875 | for any two clients of one address family: from an unused name, after the first one's add the second one's forced update deletes the first one's address |
| Ddns.Add2SafeIff | common/dns.c:1806-1875 | whatever DHCID record types others use, the second add message without override spares their records exactly if it is refused or they have none of that address type |
| Ddns.Rem1SafeIff | common/dns.c:1899-1931 | whatever DHCID record types others use, the first remove message spares their records exactly if it is refused or nobody else added that address |
| Ddns.Add1Rem2Safe | common/dns.c:1727-1985 | the other two messages never delete another client's address, in any state of the name |
| Ddns.MixedStylesTakeOver | common/dns.c:1727-1931 | a run from an unused name for any two clients with different DHCID record types: one adds and drops its address, the other takes the name, and the first one's next update deletes the other's address |
| DdnsBlocks.StepInvIff | client/dhclient.c:4680-5119 | any schedule, remove, timer or completion step keeps every block in exactly one of {timer pending, in flight, freed} and the client and block pointers mutual, exactly if it does not start an update whose ddns_modify_fwd itself fails with a timeout |
| DdnsBlocks.RunInv | client/dhclient.c:4680-5119 | in every run without such a start, from any state that meets the invariant: one place for each block, freed at most once and for good, pointers mutual |
| DdnsBlocks.FalseStartLoses | client/dhclient.c:4803-4827 | the smallest run in which a block ends up neither pending, nor in flight, nor freed |
| DdnsBlocks.StepLater | client/dhclient.c:4680-5119 | no step takes back a free or forgets a block |
| DdnsBlocks.CancelledIsFreed | common/dns.c:1992-2045 | a cancelled block is freed by its next event, whichever that is |
| DdnsBlocks.TimerFiresInv | client/dhclient.c:4803-4827 | the retry timer keeps the invariant exactly if the update it starts does not time out at once |
| DdnsBlocks.RemoveInv | client/dhclient.c:4703-4731 | client_dns_remove keeps the invariant under the same condition |
| DdnsBlocks.ScheduleInv | client/dhclient.c:5074-5119 | dhclient_schedule_updates cancels the old block and records the new one, keeping the invariant |
| DdnsBlocks.CompletesInv | common/dns.c:1992-2082 | ddns_interlude keeps the invariant for every result, cancelled or not, with and without a retry after a bad zone |
| DdnsBlocks.CurFuncInv | client/dhclient.c:4680-4916 | the actions after a message keep the invariant: next message, retry timer or free |
| DdnsBlocks.RemoveActionInv | client/dhclient.c:4680-4701 | after a remove message, whatever its result: the block is in flight again or freed, and all others stay where they were |
| DdnsBlocks.UpdateActionInv | client/dhclient.c:4858-4916 | after an add message, whatever its result: the block is in flight again, waits for its retry timer or is freed |
| DdnsBlocks.AddStageIff | client/dhclient.c:4858-4916 | the second add message of a block is in flight exactly after a YXRRSET to the first (or a bad zone of its own); a timeout, and nothing else, leads back to the first add stage, with ten times the wait below 3600 |
| DdnsBlocks.RemoveStageIff | client/dhclient.c:4680-4701 | the second remove message is in flight exactly after a success of the first (or a bad zone of its own); a removal is never put on a timer |
| DdnsBlocks.RunStages | client/dhclient.c:4680-4916 | in every run a block stays an update or a removal, and is at its second message only if the run holds the answer to the first that leads there |
| DdnsBlocks.RunKinds | client/dhclient.c:4703-5119 | in every run, a block that dhclient_schedule_updates made is at an add stage, and one that client_dns_remove made at a remove stage |
| DdnsBlocks.RunStaged | client/dhclient.c:4803-4916 | in every run, a block that waits for its timer is at the first add stage, and its wait is a power of ten up to 10000 |
| DdnsBlocks.TimerSendsIff | client/dhclient.c:4803-4827 | the timer of a block sends its first add message exactly if the client is there, has a lease and wants the update; otherwise the block is freed |
| DdnsBlocks.FirstStage | client/dhclient.c:4703-5119 | a scheduled block waits at the first add stage with its client pointing to it; a removal sends its first message at once and no client points to it |
| DdnsBlocks.SupersedesIff | client/dhclient.c:5074-5119 | a new update or removal cancels exactly the block that the client had |
| DdnsBlocks.RunAborted | common/dns.c:1992-2045 | in every run, a cancelled block sends nothing any more |
| DdnsBlocks.Updater.FreeBlock | client/dhclient.c:5317-5327 | freeing the one block that is in no place restores the invariant: the client that it points to forgets it |
| DdnsBlocks.Updater.DnsUpdate | client/dhclient.c:4920-5067 | the result is a timeout exactly if the update was started or itself timed out |
| DdnsBlocks.Updater.ScheduleUpdates | client/dhclient.c:5074-5119 | the steps of the code give the state of Schedule, with the invariant |
| DdnsBlocks.Updater.DnsRemove | client/dhclient.c:4703-4731 | the steps of the code give the state of Remove, with the invariant exactly if the removal does not fail with a timeout at once |
| DdnsBlocks.Updater.DnsUpdateTimeout | client/dhclient.c:4803-4827 | the steps of the code give the state of TimerFires, with the invariant exactly if the update does not fail with a timeout at once |
| DdnsBlocks.Updater.DnsRemoveAction | client/dhclient.c:4680-4701 | the steps of the code give the state of RemoveAction, and put a block that is in no place back into one |
| DdnsBlocks.Updater.DnsUpdateAction | client/dhclient.c:4858-4916 | the steps of the code give the state of UpdateAction, whose stages AddStageIff describes, and put a block that is in no place back into one |
| DdnsBlocks.Updater.Interlude | common/dns.c:1992-2082 | the steps of the code give the state of Completes, with the invariant |
| LeaseTimes.AckTimesOrdered | client/dhclient.c:1332-1447 | for every lease time, T1, T2 and random number, and every clock at which no 64-bit sum overflows: now <= T1 <= T2, and T2 is not past the lease if the server sent none or one within the lease |
| LeaseTimes.AckTimesAre | client/dhclient.c:1332-1447 | for every lease time, T1, T2 and random number: the lease is what the option says; T1 is three quarters of its base, which is the option or half of the lease, and a quarter of the random remainder; T2 is the option or seven eighths of the lease; and a T1 past T2 becomes three quarters of T2, with the rounding of each |
| LeaseTimes.RebindIs | client/dhclient.c:1403-1425 | T2 is the option, or seven eighths of the lease rounded down, less exactly above TIME_MAX / 7 |
| LeaseTimes.RenewalIs | client/dhclient.c:1376-1401 | T1 before the comparison with T2, from its base and the random number |
| LeaseTimes.T1Range | client/dhclient.c:1399-1401 | T1 lies between three quarters and all of its base, but for rounding |
| LeaseTimes.RebindPastExpiryIff | client/dhclient.c:1403-1447 | for both widths of time_t, T2 is past the lease exactly if the server sent one longer than the lease and the end of the lease does not saturate |
| LeaseTimes.RenewalPastExpiryIff | client/dhclient.c:1376-1447 | for both widths of time_t, the renewal is more than one second past the end of the lease exactly if the renewal interval, after its correction by T2, is more than one second longer than the lease (and the narrow sums do not saturate) |
| LeaseTimes.OverstayNeedsT2 | client/dhclient.c:1403-1436 | that takes a T2 beyond the lease: no T1 does it alone |
| LeaseTimes.AddClockMono | client/dhclient.c:1438-1447 | adding the clock with saturation keeps the order of the intervals, never goes before the clock, and is exact unless the sum overflows |
| LeaseTimes.AddClockForwardIff | client/dhclient.c:1438-1447 | the saturated time is not before the clock exactly if nothing overflows or the clock is at most TIME_MAX |
| LeaseTimes.RenewalBounds | client/dhclient.c:1376-1401 | the randomised renewal interval is positive and within the type |
| LeaseTimes.RebindBounds | client/dhclient.c:1403-1425 | the rebinding interval is within the type, and within the lease if the server sent none |
| LeaseTimes.ComputeRenewal | client/dhclient.c:1376-1401 | no guarded product overflows, the modulus is not zero, and the result is the renewal interval |
| LeaseTimes.ComputeRebind | client/dhclient.c:1403-1425 | no guarded product overflows, and the result is the option or seven eighths of the lease |
| LeaseTimes.PullBack | client/dhclient.c:1427-1436 | a renewal past the rebinding is set to three quarters of it without overflow |
| LeaseTimes.ComputeTimes | client/dhclient.c:1332-1447 | the computation of the code gives AckTimes for every input |
| Dhcp4.StepDisciplined | client/dhclient.c:1119-2707 | every packet, timer and clock step leaves exactly one pending timer, the one that matches the state, not overdue, and an active lease in BOUND, RENEWING and REBOOTING |
| Dhcp4.RunDisciplined | client/dhclient.c:1119-2707 | so in every state of every run whose accepted DHCPACKs carry a lease time |
| Dhcp4.RebootDisciplined | client/dhclient.c:1119-1167 | the start through state_reboot establishes it |
| Dhcp4.AckDisciplineIff | client/dhclient.c:1332-1367 | an accepted DHCPACK keeps the discipline exactly if it carries a lease time |
| Dhcp4.TwoTimersAfterLeaselessAck | client/dhclient.c:1348-1367 | a DHCPACK without a lease time followed by a good one leaves two timers in BOUND |
| Dhcp4.TimerDisciplined | client/dhclient.c:1172-2707 | the awaited timer of any state leads to a state with one matching timer |
| Dhcp4.StepInTime | client/dhclient.c:1438-2706 | every step but an accepted DHCPACK with such options keeps: while a lease is in use, the pending timer is due at most one second after its end |
| Dhcp4.RunInTime | client/dhclient.c:1438-2706 | in every run without such a DHCPACK, the clock never shows more than one second past the expiry of a lease in use |
| Dhcp4.ServerIsProper | client/dhclient.c:1403-1447 | a server that sends no T2, or one within the lease, sends no such DHCPACK |
| Dhcp4.RebootInTime | client/dhclient.c:1119-1167 | the start through state_reboot establishes it |
| Dhcp4.LifeInTime | client/dhclient.c:1119-2707 | both results for a whole life: state_reboot of a client without timers, then any events |
| Dhcp4.AckInTimeIff | client/dhclient.c:1283-1519 | of all accepted DHCPACKs with a lease time, exactly these leave a timer more than a second past the end of the lease: their renewal interval overstays it, the lease is shorter than TIME_MAX - 2, and the script does not refuse it |
| Dhcp4.LateDeadlineIff | client/dhclient.c:1438-1519 | the same for the deadline of the renewal timer, whose limit of TIME_MAX - 1 seconds brings the client back in time for longer leases |
| Dhcp4.OverstaysInRun | client/dhclient.c:1283-1570 | with such a DHCPACK, in any state that expects one, the clock runs past the end of the lease while the client is still in BOUND |
| Dhcp4.OverstaysFromStart | client/dhclient.c:1198-1570 | a run that does so from any state in which the client waits for its first offer |
| Dhcp4.StartSelects | client/dhclient.c:1133-1191 | a client without a lease starts in such a state |
| Dhcp4.AnHourOverstays | client/dhclient.c:1376-1436 | a lease of ten seconds with T1 and T2 of an hour is overstayed, whatever the random number |
| Dhcp4.BackoffBounded | client/dhclient.c:2600-2614 | the interval grows by less than a factor of three up to the cutoff, and is between a half and one and a half of the cutoff from then on |
| Dhcp4.FirstUsable | client/dhclient.c:2426-2464 | the first candidate that has not expired and that the script accepts: it is usable, and none before it is |
| Dhcp4Moves.NakTakesLease | client/dhclient.c:2199-2272 | a DHCPNAK takes the active lease away, leaves the others and starts over, exactly if the client expects an answer and has a lease; otherwise nothing changes |
| Dhcp4Moves.AckTakesLease | client/dhclient.c:1283-1526 | a DHCPACK with a lease time leads to BOUND with the address of the DHCPACK, or to a DHCPDECLINE of it and a new start; the other leases stay |
| Dhcp4Moves.RunProvenance | client/dhclient.c:1119-2707 | in every run, each lease that the client has, in use or on its list, was recorded at the start or was granted by an accepted DHCPACK or a BOOTP offer |
| Dhcp4Moves.NakIsLasting | client/dhclient.c:2199-2272 | a lease that a DHCPNAK takes is not with the client again, in any run, until it is granted anew |
| Dhcp4Moves.StepAccounts | client/dhclient.c:1119-2707 | nothing but a grant brings a lease, and nothing but a grant or a DHCPNAK loses one, which is then the active one |
| Dhcp4Moves.RunAsks | client/dhclient.c:1119-2707 | in every run, a DHCPREQUEST asks for the address of the active lease in RENEWING and REBOOTING, and never for one that the client neither had nor was told about |
| Dhcp4Moves.RunRanks | client/dhclient.c:2011-2057 | in every run, the offers are for different addresses, and one for the address of the active lease comes first |
| Dhcp4Moves.FirstStays | client/dhclient.c:2038-2057 | any other later offer does not change which one is picked |
| Dhcp4Moves.RunLimited | client/dhclient.c:2278-2707 | in every run, SELECTING without offers lasts at most the timeout and a second, with offers the select interval, REQUESTING and REBOOTING the reboot timeout and one and a half cutoffs |
| Dhcp4Moves.RebootLimited | client/dhclient.c:1119-1167 | the start through state_reboot establishes it |
| Dhcp4Moves.RebootMoves | client/dhclient.c:1119-1167 | a client starts by asking for its lease exactly if that is a DHCP lease that has not expired, on a medium that works; otherwise it starts over |
| Dhcp4Moves.BoundMoves | client/dhclient.c:1533-1570 | at the renewal time the client asks for its own address, by broadcast exactly if T2 has passed; or starts over if the lease has expired |
| Dhcp4Moves.RequestMoves | client/dhclient.c:2525-2707 | the client gives up on a DHCPREQUEST exactly after the reboot timeout, on a medium that fails or after the end of the lease; otherwise it repeats the same request |
| Dhcp4Moves.DiscoverMoves | client/dhclient.c:2278-2401 | without an offer the client repeats its DHCPDISCOVER until the timeout, and then panics |
| Dhcp4Moves.PanicMoves | client/dhclient.c:2408-2523 | the first recorded lease that works is active with the others rotated behind it, in BOUND or already in RENEWING; without one all are in their old order, and the client waits between a half and one and a half retry intervals |
| Dhcp4Moves.SelectMoves | client/dhclient.c:1198-1278 | the first offer is asked for, or bound at once if it is a BOOTP one |
| Dhcp4Moves.OfferMoves | client/dhclient.c:1941-2071 | an offer counts in SELECTING, once for each address, and leads to the choice at once if the select interval is over |
| Dhcp4Moves.InitMoves | client/dhclient.c:1172-1191 | the client starts over with the leases that it has |
| Dhcp4Moves.DiscoverWaits | client/dhclient.c:2327-2401 | the next DHCPDISCOVER comes after a wait of up to three times the last one or around the cutoff, and at most one second after the timeout |
| Dhcp4Moves.RequestWaits | client/dhclient.c:2600-2707 | the same for the next DHCPREQUEST, at most one second after the end of the lease |
| Dhcp4Moves.FirstDiscoverWaits | client/dhclient.c:1172-1191 | a client that starts over begins with the initial interval, counted from now |
| Dhcp4Moves.FirstRequestWaits | client/dhclient.c:1533-1570 | so does one that renews its lease |
| Dhclient.ClientState.Handle | client/dhclient.c:1119-2707 | the handlers, run in place on the client state and its linked leases, take every disciplined state to the state that Step gives: it is disciplined again, and safe again if the event is proper |
| Dhclient.ClientState.Run | client/dhclient.c:1119-2707 | a whole run of events in place ends disciplined, in the state that the state machine reaches |
| Dhclient.ClientState.Live | client/dhclient.c:1119-2707 | state_reboot and then any events, in place: exactly the awaited timer is pending, and with proper servers the clock is at most one second past the expiry of a lease in use |
| Dhclient.ClientState.StateReboot | client/dhclient.c:1133-1167 | the in-place steps give the state of Reboot |
| Dhclient.ClientState.StateInit | client/dhclient.c:1172-1191 | the in-place steps give the state of InitState; the DHCPDISCOVER that follows cannot panic |
| Dhclient.ClientState.StateSelecting | client/dhclient.c:1198-1278 | the in-place steps give the state of Select |
| Dhclient.ClientState.PickOffer | client/dhclient.c:1211-1235 | both selecting timers are cancelled, the first offer is picked and the list emptied |
| Dhclient.ClientState.TakeOffer | client/dhclient.c:1247-1278 | a BOOTP offer is bound at once, another one is requested |
| Dhclient.ClientState.DhcpOffer | client/dhclient.c:1941-2071 | the in-place steps give the state of Offer |
| Dhclient.ClientState.AlreadySeen | client/dhclient.c:2011-2019 | true exactly if an offer of that address is on the list |
| Dhclient.ClientState.RankOffer | client/dhclient.c:2038-2057 | the offer that the client asked for goes to the head of the list, any other one to its end |
| Dhclient.ClientState.DhcpAck | client/dhclient.c:1283-1450 | the in-place steps give the state of Ack |
| Dhclient.ClientState.BindLease | client/dhclient.c:1452-1526 | the in-place steps give the state of Bind, with the DHCPDECLINE of a refused lease |
| Dhclient.ClientState.StateBound | client/dhclient.c:1533-1570 | the in-place steps give the state of BoundState |
| Dhclient.ClientState.DhcpNak | client/dhclient.c:2199-2272 | the in-place steps give the state of Nak; an expected DHCPNAK leaves no active lease |
| Dhclient.ClientState.SendDiscover | client/dhclient.c:2278-2401 | the in-place steps give the state of DiscoverOrPanic; the calls among the handlers terminate |
| Dhclient.ClientState.Transmit | client/dhclient.c:2327-2401 | the DHCPDISCOVER, the backoff, cut short at the panic timeout, and the next timer |
| Dhclient.ClientState.BackOff | client/dhclient.c:2600-2614 | the interval grows by less than a factor of three within the cutoff, or ends up between a half and one and a half of the cutoff |
| Dhclient.ClientState.StatePanic | client/dhclient.c:2408-2523 | the in-place steps give the state of Panic |
| Dhclient.ClientState.TryRecorded | client/dhclient.c:2408-2492 | the linked leases end up rotated as Rotated says |
| Dhclient.ClientState.SendRequest | client/dhclient.c:2525-2707 | the in-place steps give the state of Request |
| Dhclient.ClientState.Resend | client/dhclient.c:2600-2707 | the DHCPREQUEST, broadcast or to the server, the backoff, cut short at the end of the lease, and the next timer |
| LeaseRotation.LeaseList.TryLeases | client/dhclient.c:2408-2492 | the loop over the linked nodes terminates for every list with or without an active lease; it stops at the first usable lease with the others rotated behind it, or gives up with all back in place; the script ran for exactly the unexpired leases up to there, in order |
| LeaseRotation.UnexpiredDistinct | client/dhclient.c:2426-2464 | no lease is tried twice, and all unexpired ones are among those to try |
| LeaseRotation.EndedConserves | client/dhclient.c:2408-2492 | the nodes across the active pointer and the list are exactly those at the start |
| LeaseRotation.EndedIsRotated | client/dhclient.c:2408-2492 | the linked list agrees with the rotation of the state machine |
| LeaseRotation.LeaseList.ActivateNext | client/dhclient.c:2473-2483 | the active node goes to the end of the list whatever its stale link says, and the first node becomes active |
| LeaseRotation.LeaseList.FindLast | client/dhclient.c:2476-2477 | the walk to the last node of the list |
| LeaseRotation.LeaseList.PassOver | client/dhclient.c:2466-2491 | after a lease that cannot be used: give up exactly at the last candidate, otherwise go to the next one |
| LeaseFile.LoadIs | client/clparse.c:1154-1207 | for static leases followed by any sequence of dynamic ones: the last dynamic one is active, and the list holds, latest first, exactly the static ones and the earlier unexpired ones that no later statement for the same address replaces |
| LeaseFile.RoundTrip | client/dhclient.c:3403-3440 | reading back what was written gives the same active lease, and the unexpired leases of the file in reverse order |
| LeaseFile.ReversedTwice | client/dhclient.c:3403-3440 | a second rewrite restores the order |
| LeaseFile.LoadDistinct | client/clparse.c:1154-1207 | with static leases first, addresses across the list and the active lease stay pairwise distinct and the last dynamic lease is active |
| LeaseFile.ParseDynamicDistinct | client/clparse.c:1154-1207 | a dynamic lease statement always keeps addresses distinct |
| LeaseFile.ParseStaticDistinctIff | client/clparse.c:1174-1180 | a static lease statement keeps addresses distinct exactly if it is not for the active address |
| LeaseFile.Database.ParseLease | client/clparse.c:1154-1207 | the list surgery gives the state of Parse |
| LeaseFile.Database.Toss | client/clparse.c:1154-1172 | the first lease for the address, and nothing else, leaves the list |
| LeaseFile.Database.ReadFile | client/clparse.c:330-375 | the statements of a file are taken in order |
| LeaseFile.Database.Rewrite | client/dhclient.c:3420-3440 | the file holds the dynamic leases in list order, then the active one if it is dynamic |
| Heap.PriorityHeap.Insert | common/heap.c:180-191 | stores the element and keeps the heap condition, the back-indices and last < size; or reports exactly why not: no memory (with last left incremented), or a size increment of 1 |
| Heap.PriorityHeap.Delete | common/heap.c:193-211 | exactly the element at the index is gone; heap condition and back-indices hold |
| Heap.PriorityHeap.Increased | common/heap.c:213-218 | after the priority of the element at the index was raised, all others unchanged: heap condition and back-indices hold under the new order, the multiset stays |
| Heap.PriorityHeap.Decreased | common/heap.c:220-225 | after the priority of the element at the index was lowered, all others unchanged: heap condition and back-indices hold under the new order, the multiset stays |
| Heap.PriorityHeap.First | common/heap.c:227-232 | no stored element comes before element 1 |
| Heap.PriorityHeap.FloatUp | common/heap.c:137-153 | the element floats into a place where the heap condition holds everywhere, at the final index in particular |
| Heap.PriorityHeap.SinkDown | common/heap.c:155-178 | the element sinks into a place where the heap condition holds everywhere, at the final index in particular |
| Heap.PriorityHeap.FloatLoop | common/heap.c:137-150 | the loop gives Float, with every moved element's index reported |
| Heap.PriorityHeap.SinkLoop | common/heap.c:155-175 | the loop gives Sink, with every moved element's index reported |
| Heap.PriorityHeap.Resize | common/heap.c:118-135 | a larger array with the old contents, or no change |
| Heap.PriorityHeap.constructor | common/heap.c:77-102 | an empty heap; an increment of 0 means 1024 |
| Heap.FloatOrders | common/heap.c:137-153 | for any strict weak order, floating restores the heap condition if it fails only between the position and its parent |
| Heap.SinkOrders | common/heap.c:155-178 | for any strict weak order, sinking restores the heap condition if it fails only between the position and its children |
| Heap.FloatPermutes | common/heap.c:137-153 | floating changes the order of the elements only |
| Heap.SinkPermutes | common/heap.c:155-178 | sinking changes the order of the elements only |
| Heap.FirstIsLeast | common/heap.c:56-64 | in a heap no element comes before element 1 |
| Heap.MovedAheadFloats | common/heap.c:213-218 | an element whose priority was raised, all others unchanged, leaves what isc_heap_increased needs |
| Heap.FallenBehindSinks | common/heap.c:220-225 | an element whose priority was lowered, all others unchanged, leaves what isc_heap_decreased needs |
| Heap.HoleMoves | common/heap.c:137-170 | moving an element into the hole and reporting its index keeps all other back-indices right |
| TimerQueue.AddedIsUpdate | common/dispatch.c:212-344 | add_timeout is a map update: the one key that KeySetIs describes is set, all other timers stay, keys stay unique; for null callbacks too |
| TimerQueue.KeySetIs | common/dispatch.c:212-224 | that key is (func, what) unless func is null; a null func sets a timer of the same argument, of whatever function, if there is one |
| TimerQueue.CancelledIsRemoval | common/dispatch.c:377-415 | cancel_timeout is a map removal |
| TimerQueue.AddedSorted | common/dispatch.c:298-344 | in playback the list stays sorted, and a timer comes after all that are due no later |
| TimerQueue.HeadDecides | common/dispatch.c:46-73 | in a sorted list, if the first timer is in the future all are |
| TimerQueue.IntervalIs | common/dispatch.c:267-288 | the interval is the distance to the time, which for a time in whole seconds leaves out the microseconds of the clock; 0 for past times, and TIME_MAX - 1 seconds for those TIME_MAX seconds away or more |
| TimerQueue.DeadlineExactIff | common/dispatch.c:290-296 | the stored deadline is the time of the timer exactly if the clock is at a whole second |
| TimerQueue.StoredDeadline | common/dispatch.c:267-296 | the arithmetic of the code gives Deadline |
| TimerQueue.Queue.AddTimeout | common/dispatch.c:197-375 | the list holds Added, the map is updated at that one key, every structure is in exactly one of the list, the free list and dispatch; for null callbacks too |
| TimerQueue.Queue.CancelTimeout | common/dispatch.c:377-415 | the list holds Cancelled, the map loses one key, every structure is in exactly one place |
| TimerQueue.Queue.Allocate | common/dispatch.c:227-248 | a free structure is reused before a new one is allocated |
| TimerQueue.Queue.BeginCallback | common/dispatch.c:138-163 | the structure is found by identity, leaves the list for dispatch, and its key leaves the map |
| TimerQueue.Queue.EndCallback | common/dispatch.c:172-180 | after the callback the structure goes to the free list |
| TimerQueue.Queue.PopDue | common/dispatch.c:46-73 | the first timer if it is due; if nothing is taken, no timer on the list is due |
| Retransmit6.RunSound | client/dhc6.c:258-404 | in every exchange with IRT >= 1 and timers that are not early: dhc6_rand is never given a base of 0 or less, RT is 0 only if the next wake-up is past MRD, RT <= MRT + (MRT-1)/10 after an advance, at most MRC + 1 transmissions |
| Retransmit6.RunCounts | client/dhc6.c:1633-1653 | every wake-up but the last transmits; with MRC set an exchange has at most MRC + 2 wake-ups |
| Retransmit6.WakeupSound | client/dhc6.c:1623-1653 | one wake-up keeps all of that |
| Retransmit6.CheckedSound | client/dhc6.c:1633-1653 | with an RT of 0 the next check ends the exchange |
| Retransmit6.FatalIff | client/dhc6.c:258-272 | for any sound exchange and any wake-up, early or not: it is fatal exactly if RT was cut to 0, neither MRC nor MRD is over and there is memory for the message; such a wake-up is early |
| Retransmit6.EarlyAlarmIsFatal | client/dhc6.c:258-404 | an exchange of two transmissions after which a wake-up one microsecond early is fatal |
| Retransmit6.CutBounds | client/dhc6.c:373-404 | cutting to MRD never lengthens the wait, and leaves nothing exactly if the wait would begin at or past MRD |
| Retransmit6.CutEndsAtMrd | client/dhc6.c:383-402 | a wait that is cut ends less than a hundredth of a second after MRD |
| Retransmit6.DoubledBounds | client/dhc6.c:355-372 | the next RT is at least 1 and at most MRT + (MRT-1)/10 |
| Retransmit6.DoubledIs | client/dhc6.c:355-372 | the next RT is twice RT give or take a tenth where that cannot exceed MRT, and MRT give or take a tenth where it must |
| Retransmit6.RunGrows | client/dhc6.c:328-404 | without MRD, RT after n transmissions is between 1.9^n and 2.1^n times the first one, or at least nine tenths of MRT |
| Retransmit6.WakeupGrows | client/dhc6.c:355-372 | one transmission makes RT 1.9 to 2.1 times as long, or MRT holds it back; once it does, it keeps doing so |
| Retransmit6.RandReaches | client/dhc6.c:258-298 | every value within a tenth of the base is drawn by some random number |
| Retransmit6.WakeupEndsIff | client/dhc6.c:1623-1653 | a wake-up ends the exchange exactly after MRC + 1 transmissions, or MRD seconds after the first, or without memory; otherwise it sends and waits RT |
| Retransmit6.RunEnds | client/dhc6.c:1633-1653 | an exchange that ends with MRC has sent exactly MRC + 1 messages, one that ends with MRD has lasted that long |
| Retransmit6.SolicitAboveIrt | client/dhc6.c:1474-1486 | the first RT of a Solicit is greater than IRT, by one or by at most a tenth |
| Retransmit6.Rand | client/dhc6.c:258-298 | defined exactly for positive bases, and within a tenth of the base either way |
| Retransmit6.Retransmission.constructor | client/dhc6.c:301-325 | the initial state of an exchange, with the adjustment for a Solicit |
| Retransmit6.Retransmission.Advance | client/dhc6.c:328-404 | the carries between seconds and microseconds compute the next RT of the model: doubled, capped by MRT and cut at MRD |
| Retransmit6.Retransmission.CheckTiming | client/dhc6.c:1623-1653 | the checks give the state of Checked |
| Retransmit6.Retransmission.Transmit | client/dhc6.c:1864-2161 | one wake-up gives the state of Wakeup and keeps the exchange sound |
| Select6.IndependentIff | client/dhc6.c:3336-3423 | for leases of different servers, the order in which repeated dhc6_best_lease takes them does not depend on the order of arrival exactly if no lease scoring below SCORE_MIN is preferred to one scoring at least that |
| Select6.DrainSorted | client/dhc6.c:3336-3423 | the leases are then taken in descending order of preference, score and smaller server id |
| Select6.DrainIndependent | client/dhc6.c:3336-3423 | two arrival orders of the same leases are drained alike |
| Select6.DrainPermutes | client/dhc6.c:3336-3423 | draining takes every lease exactly once |
| Select6.ConflictMatters | client/dhc6.c:3387-3389 | two conflicting leases, after any others, are drained differently in their two orders |
| Select6.ArrivalCanMatter | client/dhc6.c:3387-3389 | two leases whose order of arrival decides which one is selected |
| Select6.CollectedIndependent | client/dhc6.c:3132-3147 | what the client has collected is drained in sorted order, independent of arrival, if required options are enforced or never missing |
| Select6.AcceptableScores | client/dhc6.c:2563-2621 | an accepted Advertise scores above SCORE_MIN, or 0 exactly if a required option is missing |
| Select6.CheckAdvertise | client/dhc6.c:2563-2621 | success exactly if the message and all IAs have a good status and a known type, some IA has an address, and all wanted IAs are there if required |
| Select6.CountTypeIs | client/dhc6.c:2563-2621 | the counts of IAs that an Advertise is checked by are those of each type |
| Select6.Collector.InsertLease | client/dhc6.c:1352-1369 | a lease takes the place of the one from the same server or goes to the end; server ids stay unique |
| Select6.Collector.BestLease | client/dhc6.c:3336-3423 | removes and returns the choice of Best on fresh scores, so that repeated calls take the leases as Drain says; cached scores stay right, that of the returned lease included |
| Select6.Collector.PickBest | client/dhc6.c:3346-3418 | the scan with cached scores ends at the choice of Best |
| Select6.Collector.ReceiveAdvertise | client/dhc6.c:3132-3147 | a lease is recorded exactly if it is acceptable and, when enforced, has all required options |
| Select6.InsertedUnique | client/dhc6.c:1352-1369 | taking the place of the same server's lease keeps server ids unique |
| Lease6.MergeUnion | client/dhc6.c:4652-4722 | the merged lease has exactly the union by (type, iaid), and by address or prefix and length within them |
| Lease6.MergeKeeps | client/dhc6.c:4652-4722 | the destination's IAs keep their place and times, and its addresses their lifetimes |
| Lease6.MergeFromEither | client/dhc6.c:4652-4722 | every address of the result, with its lifetimes, comes from the destination or the source for the same IA |
| Lease6.MergeUnique | client/dhc6.c:4652-4722 | unique keys stay unique |
| Lease6.MergeIdempotent | client/dhc6.c:4652-4722 | merging twice is merging once, for every pair of leases |
| Lease6.Lease.MergeFrom | client/dhc6.c:4652-4722 | the loops give Merge; the score is reset exactly if something changed, so a cached score stays right; the source is not changed |
| Lease6.MergeAll | client/dhc6.c:4661-4716 | the two loops, with the flag set exactly if something changed |
| Lease6.AddMissing | client/dhc6.c:4692-4713 | the missing addresses are put in front one by one |
| Lease6.FindAddr | client/dhc6.c:4600-4631 | found exactly if the address (and, for a prefix, the length) is in the chain |
| Lease6.SameKeyIff | client/dhc6.c:4600-4631 | addresses are told apart by themselves, prefixes by themselves and their length |
| Lease6.FindIaIn | client/dhc6.c:4584-4598 | the first IA of that type and identifier |
| Lease6.Lease.ScoreLease | client/dhc6.c:1405-1450 | the cached score, or a fresh one that is then cached; an honest cache stays honest and gives the fresh score |
| Lease6.ScoreIs | client/dhc6.c:1405-1450 | a lease without a required option is worth 0; otherwise 1, plus 1 for every requested option it has, 10000 for every IA and 100 for every address |
| Lease6.Lease.Dup | client/dhc6.c:461-563 | a copy with the same contents that has not been scored |
| Expire6.ExpireSound | client/dhc6.c:5174-5262 | after do_expire there is no lease, or every IA left has an address in use, none in use is past its valid life, and the next do_expire is set for the first end, which is strictly in the future |
| Expire6.DeprefSound | client/dhc6.c:5120-5168 | after do_depref no preferred address is past its preferred life, and the next do_depref is set for the first end, which is strictly in the future |
| Expire6.ExpireIasMembers | client/dhc6.c:5189-5245 | exactly the IAs with an address in use are left, unchanged but for the marks |
| Expire6.ExpiredOnce | client/dhc6.c:5191-5225 | an address that was expired is never expired again |
| Expire6.DepreferredOnce | client/dhc6.c:5138-5160 | an address that was depreferred is never depreferred again |
| Expire6.DueExpires | client/dhc6.c:5191-5225 | a do_expire that comes no earlier than scheduled has an address to expire |
| Expire6.LoExpireIs | client/dhc6.c:4380-4484 | the expiry time that is computed relative to each IA is the earliest end of an address in use, or MAX_TIME |
| Expire6.DeprefIs | client/dhc6.c:4386-4400 | the depreference time is the earliest end of a preferred life, or MAX_TIME |
| Expire6.ExpiryIs | client/dhc6.c:4575-4581 | after dhc6_check_times do_expire is pending exactly if an address in use ends before MAX_TIME, and then at the earliest such end |
| Expire6.DepreferenceIs | client/dhc6.c:4568-4574 | do_depref is pending exactly if a preferred life ends before MAX_TIME, and then at the earliest such end |
| Expire6.RefreshIs | client/dhc6.c:4504-4562 | which of renewal and rebinding is pending: the renewal exactly in BOUND before a later rebinding, the rebinding exactly without it and before MAX_TIME; MRD lets a renewal run to the rebinding and a rebinding to the last end |
| Expire6.CheckTimesKeeps | client/dhc6.c:4484-4502 | the lease is given up, and all timers with it, exactly if no address is in use |
| Expire6.HiExpireIs | client/dhc6.c:4402-4419 | the last expiry is the latest end of an address in use, or the start of an IA whose addresses end before that |
| Expire6.DefaultTimes | client/dhc6.c:4421-4471 | where the server gives none, T1 and T2 are a half and three quarters of the shortest lifetime, or of the longest if that is at least twice as long; a lifetime of at most a second or of MAX_TIME is replaced by the one that the client asked for |
| Expire6.InfiniteLife | client/dhc6.c:4421-4434 | infinite lifetimes get that replacement exactly if the IA starts at 0; otherwise T1 is half of the time up to MAX_TIME |
| Expire6.GivenTimes | client/dhc6.c:4451-4471 | T1 and T2 of the server are taken as they are, and infinite ones schedule nothing |
| Expire6.ExpireTakes | client/dhc6.c:5189-5245 | do_expire takes exactly the addresses out of use whose valid life is over |
| Expire6.DeprefTakes | client/dhc6.c:5138-5160 | do_depref takes no address out of use, and exactly those from the preferred ones whose preferred life is over |
| Expire6.RenewFirstIff | client/dhc6.c:4421-4471 | for all lists of IAs, T1, T2 and lifetimes: the renewal period is at most the rebinding period exactly if every IA with a finite rebinding has one that is renewed no later |
| Expire6.RenewIsLeast | client/dhc6.c:4421-4471 | the renewal period is the least of the finite ones of all IAs that are not temporary, or MAX_TIME |
| Expire6.RebindIsLeast | client/dhc6.c:4421-4471 | the same for the rebinding period |
| Expire6.MaxStartsIs | client/dhc6.c:4421-4471 | the start that both are counted from is the latest one of those IAs |
| Expire6.OrderedAnswers | client/dhc6.c:4421-4471 | with T1 and T2 both missing or T1 <= T2 in every IA, that condition holds |
| Expire6.RenewBeforeRebindIff | client/dhc6.c:4504-4511 | for all lists of IAs, the scheduled renewal is no later than the rebinding exactly if that condition holds between the times as scheduled, where an infinite one stands at MAX_TIME |
| Expire6.RebindComesFirst | client/dhc6.c:4447-4511 | an IA without T1, one without T2 and one with T1 after T2 for which the renewal is scheduled after the rebinding |
| Expire6.ActiveLease.Check | client/dhc6.c:4358-4582 | the scan and the choice of timers give CheckTimes, whose timers ExpiryIs, DepreferenceIs and RefreshIs describe |
| Expire6.ActiveLease.ScanAddrs | client/dhc6.c:4386-4419 | the first depreference, the first and last expiry relative to the IA, and whether an address is in use |
| Expire6.ActiveLease.ScanRefresh | client/dhc6.c:4421-4471 | the renewal and rebinding periods of an IA |
| Expire6.ActiveLease.ScheduleRefresh | client/dhc6.c:4504-4562 | the renewal or the rebinding is scheduled, as Refresh says |
| Expire6.ActiveLease.RunExpire | client/dhc6.c:5174-5262 | the in-place editing gives Expire |
| Expire6.ActiveLease.ExpireBindings | client/dhc6.c:5189-5245 | the IA list, edited through a moving pointer, is ExpireIas of the old list |
| Expire6.ActiveLease.RunDepref | client/dhc6.c:5120-5168 | the marking loop gives Depref |
| Expire6.ActiveLease.RunBound | client/dhc6.c:4729-4865 | start_bound ends with the timers of the new lease |
| Life6.RunTimely | client/dhc6.c:4358-5262 | in every run of Replies, timers and the clock in which due timers fire and Replies bring no address that has ended: the clock is never past the valid life of an address in use, nor past the preferred life of a preferred one |
| Life6.RunTickTimely | client/dhc6.c:4358-5262 | whatever Replies bring, the clock does not move on before do_expire and do_depref have dealt with it |
| Life6.RunWatched | client/dhc6.c:4358-5262 | in every run, a lease has an address in use and its timers are set for the first depreference and the first end |
| Life6.RunSpares | client/dhc6.c:4358-5262 | in a run without a Reply, an address stays in use at least as long as it is valid, and none is added |
| Life6.StepSpares | client/dhc6.c:4358-5262 | a step takes nothing out of use whose valid life is not over, and puts nothing in use |
| Life6.NoStrayIff | client/dhc6.c:5247-5258 | a step leaves a client without a lease in INIT with no refresh pending, exactly unless do_expire gives up the lease while a renewal or rebinding is pending |
| Life6.StrayRun | client/dhc6.c:5247-5258 | a Reply with lifetimes before T1 leads there |
| Life6.StrayFires | client/dhc6.c:4885-5115 | that timer then takes the client, which has no lease, from INIT to RENEWING or REBINDING |
| Life6.RefreshRuns | client/dhc6.c:4885-5115 | MRD of a renewal ends at the rebinding time, and that of a rebinding at the last end |
| Life6.RenewalEnds | client/dhc6.c:4960-4968 | a renewal whose MRD is over makes way for the rebinding at its time, and keeps the lease |
| Life6.Handle | client/dhc6.c:4358-5262 | the in-place handlers give the state of Step |
| Life6.Run | client/dhc6.c:4358-5262 | a whole run in place: no address in use is past its valid life |
| Dhcp4o6.RunFine | client/dhclient.c:5346-5560 | in every run over a channel that loses and reorders messages: the poll timer is armed exactly in state 0, a pending reboot or release implies state 0, the state is 1 exactly if the last START or STOP received is a START, and no more queries are sent on than were sent |
| Dhcp4o6.StepFine | client/dhclient.c:5346-5560 | every step of either side keeps the two sides consistent, and queries leave only after a START |
| Dhcp4o6.StepAccounted | client/dhclient.c:2898-2967 | every step keeps: queries sent on and queries under way are no more than queries sent |
| Dhcp4o6.FoundIff | client/dhclient.c:5489-5538 | dhcp4o6_start goes up exactly if forw_dhcpv4_query would send to some address |
| Dhcp4o6.QueryOnlyAfterStart | client/dhclient.c:2842-2845 | in a run from the beginning a query is sent exactly if the last START or STOP received is a START |
| Dhcp4o6.PollIsAnswered | client/dhclient.c:5361-5376 | a POLL is answered by a START if the DHCPv6 side is up and by a STOP if it is down, and changes nothing else |
| Dhcp4o6.AnnouncesTruth | client/dhclient.c:5361-5560 | a START is sent only by a side that is up, a STOP only by one that is down, and every change of state is announced |
| Dhcp4o6.SendsIff | client/dhclient.c:5394-5457 | a POLL is sent exactly when its timer goes off and when polling begins, a query exactly after a START, and the channel changes in no other way |
| Dhcp4o6.PutOffIff | client/dhclient.c:1124-1133 | a reboot or a release is put off, with the poll timer armed, exactly if the last START or STOP received is not a START |
| Dhcp4o6.ResponsesIff | client/dhclient.c:1788-1796 | the answer of a server goes to the DHCPv4 side exactly if the DHCPv6 side is up |
| Dhcp4o6.StartMeansUp | client/dhclient.c:5346-5560 | in every run, the DHCPv4 side is started, or a START is under way, only if the DHCPv6 side has been up |
| Dhcp4o6.QueryIsAnswered | client/dhclient.c:2898-2967 | a query that finds no server address takes the DHCPv6 side down, with a STOP exactly if it was up |
| Dhcp4o6.ToldIff | client/dhclient.c:5547-5560 | a step keeps "if the DHCPv6 side is down, the other side knows or a STOP is under way" exactly if it neither loses the last STOP nor delivers a START after it |
| Dhcp4o6.DeafForever | client/dhclient.c:5346-5560 | once that is broken the DHCPv4 side stays started and does not poll, in every run, until the DHCPv6 side starts anew |
| Dhcp4o6.LostStopDeafens | client/dhclient.c:5489-5560 | from any state with both sides up, the end of the lease and one lost STOP break it |
| Dhcp4o6.ComesUp | client/dhclient.c:5489-5538 | both sides come up from the initial state |
| Dhcp4o6.PollGetsThrough | client/dhclient.c:5437-5479 | one poll that is answered while the DHCPv6 side is up resumes everything that was put off |
| Dhcp4o6.ResumeDoesAll | client/dhclient.c:5466-5479 | resuming does every pending reboot, and ends the process exactly if a release is pending |
| Dhcp4o6.HearSound | client/dhclient.c:5394-5407 | a START or STOP keeps timer, state and pending operations consistent; after a START nothing is pending |
| Dhcp4o6.Process4.Receive | client/dhclient.c:5394-5407 | the code gives Hear and keeps the side sound |
| Dhcp4o6.Process4.DoPoll | client/dhclient.c:5437-5457 | from any sound state that is not started: polling, timer armed, and sound again |
| Dhcp4o6.Process4.DoResume | client/dhclient.c:5466-5479 | the loop over the clients gives Resume |
| Dhcp4o6.Process4.StateReboot | client/dhclient.c:1124-1133 | the side stays sound, and the reboot is put off exactly if the last START or STOP received is not a START |
| Dhcp4o6.Process4.DoRelease | client/dhclient.c:4463-4470 | the side stays sound, and the release ends the process exactly if the last START or STOP received is a START |
| Dhcp4o6.Process4.SendQuery | client/dhclient.c:2842-2845 | a query is sent exactly if the last START or STOP received is a START |
| Dhcp4o6.Process6.DoStart | client/dhclient.c:5489-5538 | the search decides: the side is up afterwards exactly if a query would be sent to some address, and a change of state is announced |
| Dhcp4o6.Process6.AnswerPoll | client/dhclient.c:5361-5376 | the answer to a POLL says whether the side is up |
| Dhcp4o6.Process6.FindServer | client/dhclient.c:5495-5523 | the loops find a usable server address option exactly if a bound client with a lease has one |
| Dhcp4o6.Process6.SendToServers | client/dhclient.c:2907-2960 | the loops make one attempt for every address of every usable option |
| Dhcp4o6.Process6.ForwardQuery | client/dhclient.c:2898-2967 | the query is sent on, or the side is stopped with an announcement if it was up |

## Left out

- Packet input and output, interface discovery, option encoding, script execution, logging, OMAPI and tracing: only their results appear.
- Microseconds of DHCPv4 timers: the DHCPv4 state machine counts whole seconds; the half-second restart after a DHCPACK without a lease time is due in the current second.
- The one-try mode, in which the client exits instead of going back to INIT.
- Control-channel, release and interface events of the DHCPv4 client: they bypass the timer discipline.
- 32-bit wrap-around of retransmission intervals, scores and of `expiry + 1`: these are unbounded integers; the width of `time_t` is modelled in `LeaseTimes.dfy`.
- The choice of the medium in `send_discover`: the model leaves open whether a step tries the next medium.
- The contents of DHCPv4 messages other than their kind, address and destination.
- Matching of transaction identifiers and hardware addresses, reject lists and required options of DHCPv4 offers: the model begins with packets that pass them.
- Dhcp4.RunInTime: the clock does not run past a timer that is due, and leases recorded at the start have a renewal time no later than one second after their expiry.
- Retransmit6.RunSound: alarms are never early; Retransmit6.FatalIff says which early ones would be fatal.
- Heap.PriorityHeap.Insert: an element that is already stored is not inserted again when there is an index callback, since it has one back-index only.
- Heap.PriorityHeap.Increased: the order after the change is a parameter, because the comparison reads the changed element; without an index callback the stored elements are distinct, as a changed element that is stored twice is out of order in two places.
- Heap.PriorityHeap.Decreased: the same.
- The isc timers behind the timer list and the reference counting of timer arguments.
- The loop of `process_outstanding_timeouts` around its callbacks: callbacks may add timers that are due at once, so only its single round is modelled.
- DDNS control blocks for PTR records and chained operations (`next_op`): the client uses neither.
- Lease6.Lease.Dup: addresses and IAs are values, so a copy shares nothing by construction.
- Lists of leases, IAs and addresses other than in `LeaseRotation.dfy` are sequences; sharing of their nodes is not modelled.
- Alias leases, DHCPv6 leases and DUIDs in the lease file, and its syntax: statements are records.
- DHCPv6 exchanges: which message is sent when, and how a Reply is checked; `Life6.dfy` begins with the lease that a Reply brings.
- Expire6.ExpireTakes: addresses do not start before the epoch, since an infinite life is a number of seconds in `do_expire`.
- Expire6.DeprefTakes: the same.
- Life6.RunTimely: the clock stays below MAX_TIME and does not run past a timer that is due.
- Delivery of messages between the two DHCPv4-over-DHCPv6 processes: that polling ends depends on a message getting through (Dhcp4o6.PollGetsThrough).
