# Verification of the 21pins control plane cores

This project models the decision-making cores of 21pins in Dafny and proves what they promise. 21pins hands out short-lived SSH
authority, runs a privileged WireGuard helper, and collects read-only evidence about network policy. Five groups of modules cover:

* **Packet filter and DNS.** `Bpf` is the classic BPF machine. `PacketFilter`, `FilterVerdict` and `FilterGenerator` state the
  verdict on header fields (section 3.1 of RFC 791, section 3.1 of RFC 9293), the program the generator must reach, and the
  generator with its back-patched jumps; every generated program computes the stated verdict on every packet. `DnsName`, `Dns`,
  `DnsResponse` and `DnsReply` model names, queries, the parser and the responses it accepts (sections 4.1.1, 4.1.2, 4.1.4 and
  4.2.2 of RFC 1035, section 6.1 of RFC 6891, section 2 of RFC 8914); `PacketChallenge` is the user-space decoder of admitted
  packets.
* **WireGuard enrolment.** `WireGuardConfig` parses the configuration text, `WireGuardText` reads written files back, and
  `WireGuardShape` and `WireGuardKeys` say what accepted ones look like; `Enrollment` is the journaled transaction over
  configuration bytes, journal and live peers, with a crash or a tool failure that may have taken effect at every step.
* **nftables and routing evidence.** `Nftables` is a small concrete semantics of chains. `OpenWrtRules`, `OpenWrtWalk`,
  `OpenWrtSound`, `OpenWrtFollow`, `OpenWrtNormalize`, `OpenWrtExact`, `OpenWrtEvidence`, `OpenWrtCoverage` and `OpenWrtWalker`
  model the three-valued walk and prove when its evidence is true of that semantics; `RoutePolicy` models the reading of policy
  routing rules; `LinuxPolicy` and `LinuxPrefix` are the first-match summary of one chain.
* **SSH authority.** `Wire` and `Certificate` check certificates (section 5 of RFC 4251, OpenSSH PROTOCOL.certkeys). `ShellWords`
  and `ShellGate` are the client's quoting, the gate's command grammar, a reference tokeniser (sections 2.2.2 and 2.2.3 of the
  POSIX Shell Command Language) and the forced command. `Lease`, `LeaseRuns`, `LeaseEffects` and `LeaseService` are the lease
  state machine with serial reservation.
* **Registry, questions, verdicts, keys, journal.** `Registry`, `RegistryEffects`, `Closure`, `QuestionDigest`, `Questions`,
  `PolicyRules`, `PolicyEffects`, `Verdicts`, `VerdictLife`, `KeyRotation`, `KeyStore`, `KeyUse` and `StageJournal`.

`Bytes`, `Text` and `Sorting` hold shared ground. `dafny verify dfyconfig.toml` checks everything.

## Conventions

Outside facts are parameters: clock readings, random identifiers (assumed fresh), the signer, signature verification, address
parsing (`Library`, `Net`), digests. A digest is a value that is as good as its input, or an injective function. A write of a
whole file leaves the old or the new content, and the caller may not learn which. JSON is decoded before the model starts: rules,
listings and records are values. Operations that update fields in the source are class methods here, each tied to a function of
the old state; the lemmas are about those functions and about runs of them.

## What turned out otherwise than promised

* A walk follows a `jump` or `return` that carries an output-interface condition as if it always applied, and compares an ingress
  pattern as a plain name (`OpenWrtExact.FollowedJumpMisleads`, `OpenWrtExact.AcceptBehindMisleads`, `OpenWrtExact.GuardMisleads`,
  `OpenWrtExact.WildcardIngressMisleads`). `OpenWrtFollow.Follow` decides readable rules for one packet and the interface it
  leaves by, and is chain traversal for it (`OpenWrtFollow.FollowSound`, `OpenWrtFollow.ReadingExact`). The code's verdict, mark,
  forwarding and guard are right for every packet but those whose interface a jump or return names that was taken, or whose
  ingress a pattern covers (`OpenWrtEvidence.EvidenceSound`); for these, where they can be read, they are right exactly when they
  tell what is read (`OpenWrtEvidence.EvidenceExact`). A single known match is right exactly unless a pattern covers the packet's
  ingress and both addresses fit (`OpenWrtSound.MatchSound`).
* A guard for another interface makes every packet drop that does not leave by that interface, so `forwarded` means accept only
  for interfaces no earlier guard drops. With prefix selectors a `denied` or `forwarded` entry can be wrong
  (`LinuxPolicy.PrefixMisleads`, `LinuxPrefix.TargetPrefixMisleads`): the summary says what first-match evaluation does without
  the rules that reach the packet through a prefix (`LinuxPrefix.PrefixesIgnored`), so it is right exactly when leaving those out
  changes nothing (`LinuxPrefix.PrefixExact`).
* The certificate lifetime is capped by the configuration the service started with, while the pinned digest is compared with the
  current one; `LeaseRuns.CurrentCeiling` says exactly when that stays within the current ceiling.
* A configuration whose key text goes on after a blank is accepted when what follows the blank and the prefix text make one
  canonical prefix; the peer then has no prefixes, under a text that is no key (`WireGuardKeys.SpacedKeyAccepted`). The keys of an
  accepted file are keys exactly as far as they hold no white space (`WireGuardKeys.AcceptedKeys`).
* A response is refused when the caller's domain ends in a dot, although the query for it is accepted
  (`DnsReply.ResponseAccepted`).
* The decoder compares names with the nonce as given, the query with its lower-case form, so only a nonce in canonical spelling is
  recognised (`PacketChallenge.AdmittedIsRecognised`).
* Key rollback does not look at the grace window that README.md:150 of the repository describes: at any time it succeeds exactly
  when the active and the previous pointer are both set (`KeyRotation.RollbackAtAnyTime`). A commit with an active key takes the
  previous pointer away from an earlier previous key, which keeps its status and can no longer be reached through a pointer
  (`KeyRotation.CommitLeavesPrevious`).
* The per-tuple requirement lists inside a request digest are compared in order, unlike the four top-level lists
  (`QuestionDigest.DigestDetermines`).

## Model

| member | source | states |
|---|---|---|
| `FilterGenerator.ScopedPacketFilter` | internal/netpolicy/observer_linux.go:54-143 | refused exactly for a nonce that is no domain or whose question exceeds 96 bytes; otherwise the generated program is well formed and, run on any packet, gives the verdict stated on header fields |
| `FilterGenerator.Assemble` | internal/netpolicy/observer_linux.go:63-142 | emitting and back-patching always yields the target program; the 255-instruction refusal is never reached |
| `FilterGenerator.Generator.MatchOne` | internal/netpolicy/observer_linux.go:83-100 | one load and comparison of four, two or one question bytes is appended and its jump is listed |
| `FilterGenerator.Generator.Match` | internal/netpolicy/observer_linux.go:81-102 | the whole question comparison is appended, exactly its jumps are listed for the drop exit, and admission follows |
| `FilterGenerator.Generator.EmitTcpHead` | internal/netpolicy/observer_linux.go:104-114 | the TCP payload test is appended and its jumps are listed for the right exits |
| `FilterGenerator.Generator.EmitTcp` | internal/netpolicy/observer_linux.go:103-115 | the TCP part is appended whole, from index 17 |
| `FilterGenerator.Generator.EmitUdp` | internal/netpolicy/observer_linux.go:116-121 | the UDP part is appended whole, and its index is returned |
| `FilterGenerator.Generator.PatchFalse` | internal/netpolicy/observer_linux.go:130-132 | exactly the listed instructions get the eight-bit false offset of the exit |
| `FilterGenerator.Generator.PatchTrue` | internal/netpolicy/observer_linux.go:133-138 | exactly the listed instructions get the eight-bit true offset of the exit |
| `FilterGenerator.Generator.PatchAll` | internal/netpolicy/observer_linux.go:129-141 | patching turns the cleared instructions into the target whenever the lists say where the target jumps |
| `FilterGenerator.RawIsCleared` | internal/netpolicy/observer_linux.go:63-122 | before patching, every emitted instruction is the final one without its jumps |
| `FilterGenerator.PatchTargets` | internal/netpolicy/observer_linux.go:72-121 | the collected jump lists are exactly where the final program jumps, and no index is in two of them |
| `PacketFilter.ProgramWellFormed` | internal/netpolicy/observer_linux.go:126-141 | every jump is forward, inside the program and in eight bits, for every valid scope |
| `PacketFilter.JumpTable` | internal/netpolicy/observer_linux.go:72-141 | each instruction jumps to the exit its index is listed for, or just on |
| `PacketFilter.JumpIndicesAreOdd` | internal/netpolicy/observer_linux.go:81-101 | the comparison jumps are the odd positions of each comparison |
| `PacketFilter.RawCompareIsCleared` | internal/netpolicy/observer_linux.go:81-101 | an unpatched comparison is the patched one with its jumps cleared |
| `FilterVerdict.ProgramComputesVerdict` | internal/netpolicy/observer_linux.go:54-143 | for every scope and every packet, running the program gives 4096, 1 or 0 as stated on version, addresses, protocol, fragment bits, port, lengths and question bytes |
| `FilterVerdict.CompareRuns` | internal/netpolicy/observer_linux.go:81-102 | a comparison, instruction by instruction, admits exactly when the payload holds the remaining question bytes, wherever it starts |
| `FilterVerdict.UdpRuns` | internal/netpolicy/observer_linux.go:116-121 | the UDP part: short payload is reported as meta, otherwise the question decides |
| `FilterVerdict.TcpRuns` | internal/netpolicy/observer_linux.go:103-115 | the TCP part: missing or short header, empty payload and short payload end where stated, otherwise the question decides |
| `FilterVerdict.PortTestRuns` | internal/netpolicy/observer_linux.go:69-70 | the header length goes into X; another port is dropped, the protocol chooses the part |
| `FilterVerdict.FragmentRuns` | internal/netpolicy/observer_linux.go:68 | any fragment bit or offset ends as meta |
| `FilterVerdict.AddressesRun` | internal/netpolicy/observer_linux.go:64-66 | packets that are not IPv4 with both addresses of the scope are dropped |
| `PacketChallenge.FindMessage` | internal/netpolicy/observer_linux.go:246-287 | the decoder narrows to exactly the message the length fields delimit |
| `PacketChallenge.Challenge` | internal/netpolicy/observer_linux.go:246-300 | what the decoder reports is a function of the located message and the reference name decoder |
| `PacketChallenge.AdmittedIsRecognised` | internal/netpolicy/observer_linux.go:54-300 | an admitted packet is reported as a complete match with its transport exactly when the nonce is in canonical spelling and the packet is plain (full header, captured, a query, and over TCP a length prefix that covers the name and fits) |
| `PacketChallenge.MessageSeen` | internal/netpolicy/observer_linux.go:287-300 | the name in a message that starts like the query is decoded exactly when the message reaches its end |
| `DnsName.DecodeName` | internal/netpolicy/dns.go:53-96 | the loop with its seen-set and step bound gives what a decoder that only counts steps gives, for every message and offset |
| `DnsName.CycleHasNoName` | internal/netpolicy/dns.go:57-61 | an offset that leads back to itself has no name under any step bound |
| `DnsName.WireDecodes` | internal/netpolicy/dns.go:53-96 | a wire name decodes to its labels exactly when the step bound exceeds their number |
| `DnsName.JoinLength` | internal/netpolicy/dns.go:80-84 | labels joined by dots have at least twice their number less one bytes, so 253 bytes mean at most 127 labels |
| `Dns.DnsQuery` | internal/netpolicy/dns.go:22-52 | a query is made exactly for domains that in lower case, two non-ASCII letters included, are 1 to 253 bytes of labels of 1 to 63 letters, digits and hyphens; its bytes are header, question and OPT record |
| `Dns.QueryDecodes` | internal/netpolicy/dns.go:22-96 | the name at offset 12 of a query is the lower-case domain, ending after its zero byte; it is found exactly with more steps than labels, and there are at most 127 |
| `Dns.QueryFields` | internal/netpolicy/dns.go:22-52 | the fixed fields of a query: identifier, recursion desired and nothing else, one Internet address question, one empty OPT record at the root that offers 1232 bytes |
| `Dns.LongestDomain` | internal/netpolicy/dns.go:53-57 | for every number of labels up to 127 a domain has that many and its name takes exactly one step more, so the bound of 128 steps is needed |
| `Dns.QuestionDecodes` | internal/netpolicy/dns.go:53-96 | the question decodes to the lower-case domain in any message that holds it, wherever it lies |
| `DnsResponse.ParseDns` | internal/netpolicy/dns.go:97-159 | the parser computes the reference grammar, with its filter flag and code; `DnsReply.ResponseAccepted` says which messages that are |
| `DnsResponse.ScanOptions` | internal/netpolicy/dns.go:136-151 | the option loop succeeds exactly on a whole number of options and reports codes 15 and 17 |
| `DnsResponse.ReadRecord` | internal/netpolicy/dns.go:118-153 | one record is read as the reference grammar has it: any type but OPT moves on, OPT once, at the root, late and in version 0 |
| `DnsResponse.ReadRecords` | internal/netpolicy/dns.go:117-154 | all records in turn, as the reference grammar has them |
| `DnsResponse.OptionsAreWhole` | internal/netpolicy/dns.go:136-151 | the options of a record are accepted exactly when its data is a list of whole options, and then block exactly when one of these does |
| `DnsReply.OwnerDecodes` | internal/netpolicy/dns.go:53-96 | labels that end, or end in a pointer to the name of the question, are the whole name exactly when that has at most 253 bytes and takes at most 128 labels, pointers and terminators |
| `DnsReply.PiecesAreRead` | internal/netpolicy/dns.go:117-154 | any list of records, wherever they lie in a message, is read exactly when every owner is short enough and at most one record is OPT, among the additional ones and in version 0 |
| `DnsReply.AcceptedHeader` | internal/netpolicy/dns.go:97-116 | whatever the message: it is accepted only with the query's identifier, the response bit, opcode zero, no truncation, the reserved bit clear, one Internet address question for the domain and at most 128 records; its code is that of the flags |
| `DnsReply.ResponseAccepted` | internal/netpolicy/dns.go:22-159 | a response with any records in its three sections, compressed owners included, is accepted exactly under these conditions and when the caller's domain has no trailing dot; it is reported as filtered exactly when an option of its OPT record blocks |
| `WireGuardConfig.ReadPeers` | internal/dnsadmin/admin.go:227-258 | peer lines are read as the line-by-line reference reads them; `WireGuardText.ListingReadsBack` and `WireGuardShape.ListingValid` say what that is |
| `WireGuardConfig.ReadConfig` | internal/dnsadmin/admin.go:281-358 | the section loop reads exactly what the reference scan reads; `WireGuardText.FileReadsBack`, `WireGuardShape.AcceptedShape` and `WireGuardShape.SectionsComplete` say what that is |
| `WireGuardConfig.CloseSection` | internal/dnsadmin/admin.go:288-304 | closing a peer section adds its one peer, or refuses |
| `WireGuardConfig.AppendAddsPeer` | internal/dnsadmin/admin.go:281-358 | appending the block to an accepted text is refused when the key is there, and otherwise adds exactly that key with the pinned prefix, newline at the end or not |
| `WireGuardText.ListingReadsBack` | internal/dnsadmin/admin.go:227-258 | a listing of peers, a key, blanks and prefixes between commas or the word for none on each line, is read back as exactly these peers with these prefixes in order; it is refused exactly when a key comes twice or a prefix is not canonical |
| `WireGuardText.SectionCloses` | internal/dnsadmin/admin.go:288-304 | a section with a key and prefixes, with blanks after the commas or not, adds exactly that peer, or is refused for a known key or a prefix that is not canonical |
| `WireGuardText.FileReadsBack` | internal/dnsadmin/admin.go:281-358 | a configuration with an interface section and any peer sections, with comments, white space and other settings anywhere, is read back as exactly its peers with their prefixes in order; it is refused exactly when a key comes twice or a prefix is not canonical |
| `WireGuardShape.AcceptedShape` | internal/dnsadmin/admin.go:281-358 | in every accepted file one interface header comes before anything but comments, and below it stand only peer headers, comments and settings, of which saving back is never on |
| `WireGuardShape.SectionsComplete` | internal/dnsadmin/admin.go:288-349 | every peer section of an accepted file sets a key and prefixes and never sets either again |
| `WireGuardShape.ListingValid` | internal/dnsadmin/admin.go:227-258 | every line of an accepted listing is empty or about a peer of the table, whose keys are keys and whose prefixes are canonical |
| `WireGuardKeys.AcceptedKeys` | internal/dnsadmin/admin.go:285-304 | the keys of an accepted file are keys exactly as far as they hold no white space |
| `WireGuardKeys.SpacedKeyAccepted` | internal/dnsadmin/admin.go:285-304 | a file whose key text goes on after a blank is accepted, with a peer without prefixes under a text that is no key |
| `Enrollment.CheckPeers` | internal/dnsadmin/admin.go:266-280 | another peer that overlaps the pinned prefix, or the pinned key with other prefixes, is an error; otherwise presence is reported, whatever the map order |
| `Enrollment.CheckMeans` | internal/dnsadmin/admin.go:266-280 | the check succeeds exactly when no other peer has a prefix that overlaps the pinned one and the pinned peer, if present, has just that one |
| `Enrollment.Helper.Enrol` | internal/dnsadmin/admin.go:483-526 | one call leaves the world and reports as the transaction function says |
| `Enrollment.Helper.Added` | internal/dnsadmin/admin.go:527-557 | adding the peer: journal, file, kernel, confirmation, each with its own faults |
| `Enrollment.Helper.RolledBackFrom` | internal/dnsadmin/admin.go:424-458 | rolling back from a journal, with a crash or fault at every step |
| `Enrollment.Helper.Undone` | internal/dnsadmin/admin.go:533-553 | a failed step is rolled back, and the report says whether that worked |
| `Enrollment.Helper.Verified` | internal/dnsadmin/admin.go:359-393 | verification reads everything and changes nothing |
| `Enrollment.VerifyTells` | internal/dnsadmin/admin.go:359-393 | verification succeeds exactly when nothing is open, file and kernel agree and hold the pinned peer without a rival |
| `Enrollment.RollbackKeeps` | internal/dnsadmin/admin.go:424-458 | inside a transaction a rollback that works restores file, kernel and no journal; any other leaves the transaction recoverable; without faults it works |
| `Enrollment.RollbackTells` | internal/dnsadmin/admin.go:424-458 | whatever the journal: a file that is neither of its texts, another manifest or a rival claim is refused untouched, and a rollback that works leaves the journalled text and table |
| `Enrollment.AddPeerKeeps` | internal/dnsadmin/admin.go:527-557 | adding leaves the old state recoverable or the new state committed, whatever fails |
| `Enrollment.EnrollKeepsInStep` | internal/dnsadmin/admin.go:483-558 | one call with any faults keeps file, journal and kernel in step and every other peer untouched |
| `Enrollment.RunsStayInStep` | internal/dnsadmin/admin.go:424-558 | over every run of calls: without a journal the parsed file equals the kernel's peers, with one both are original or patched; other peers and the base text stay |
| `Enrollment.UndisturbedEnrolls` | internal/dnsadmin/admin.go:483-558 | from any such state one undisturbed call enrols exactly when no other peer has an overlapping prefix and the pinned peer no other one, and otherwise refuses and changes nothing |
| `Enrollment.OutOfStepRefused` | internal/dnsadmin/admin.go:508-523 | an unreadable file, a file and a kernel that differ, or a rival claim: nothing changes and the call does not work |
| `Enrollment.EnrolledIsStable` | internal/dnsadmin/admin.go:524-526 | once enrolled a call changes nothing, whatever happens to it |
| `Enrollment.EventuallyEnrolled` | internal/dnsadmin/admin.go:483-558 | any run, one undisturbed call, any further run: enrolled, other peers and the original bytes intact |
| `OpenWrtRules.ParseRule` | internal/netpolicy/openwrt.go:276-376 | the expression loop computes the reference reading of a rule |
| `OpenWrtRules.RuleMeaning` | internal/netpolicy/openwrt.go:276-376 | a valid rule, interface patterns included, does in the kernel semantics exactly what its reading says: act when source, destination, ingress and output interface fit, else go on |
| `OpenWrtSound.MatchSound` | internal/netpolicy/openwrt.go:452-490 | a known match is true of the client's packets exactly unless a pattern covers the ingress and both addresses fit; a reported match always is |
| `OpenWrtFollow.AppliesSound` | internal/netpolicy/openwrt.go:452-490 | where source, destination and ingress of a rule can be decided, it applies to a packet exactly when its selectors and its output interface hold |
| `OpenWrtFollow.FollowSound` | internal/netpolicy/openwrt.go:682-743 | following a packet through readable rules, jumps and returns for the interface it leaves by is chain traversal, verdict and mark |
| `OpenWrtFollow.ReadingExact` | internal/netpolicy/openwrt.go:682-763 | what is read of a base chain for an interface, policy included, is what the kernel does with every packet that leaves by it |
| `OpenWrtFollow.RulesFollowed` | internal/netpolicy/openwrt.go:690-742 | the code's known walk from any rule on says what following the packet gives, unless a jump or return it took names the packet's interface or a pattern covers its ingress; a packet that does not leave by the interface of every drop stepped over is dropped |
| `OpenWrtFollow.ChainFollowed` | internal/netpolicy/openwrt.go:682-743 | the same for whole chains, with jumps, returns, depth limit and cycles |
| `OpenWrtSound.ChainForgets` | internal/netpolicy/openwrt.go:682-743 | the answer of a walk and the guards it adds do not depend on what was walked before |
| `OpenWrtSound.ChainKeepsGuard` | internal/netpolicy/openwrt.go:727-733 | a guard seen by a walk that is not a drop lies behind a drop of every interface but the VPN's |
| `OpenWrtFollow.RootReads` | internal/netpolicy/openwrt.go:682-763 | the code's verdict and mark for a base chain are what is read of it, under the same condition |
| `OpenWrtWalker.Walker.Run` | internal/netpolicy/openwrt.go:682-743 | the recursive walk over mutable state equals the walk function and terminates on cyclic jumps |
| `OpenWrtWalker.Walker.Apply` | internal/netpolicy/openwrt.go:691-738 | one rule ends the walk of its chain with an answer, or the walk goes on behind it |
| `OpenWrtWalker.ParseChain` | internal/netpolicy/openwrt.go:377-415 | a listing is read into a valid chain exactly when it is short, about this chain only and described once; then rule by rule |
| `OpenWrtWalker.ListingReadsBack` | internal/netpolicy/openwrt.go:377-415 | meta information, one fitting description and up to 32 expressions a rule are read as a valid chain of that policy and exactly these rules |
| `OpenWrtWalker.ListingHolds` | internal/netpolicy/openwrt.go:377-415 | a valid chain's listing holds one fitting description and otherwise only meta information and rules of that chain |
| `OpenWrtWalker.ListingsRead` | internal/netpolicy/openwrt.go:377-415 | tables read from listings of literal rules are those the soundness results speak about |
| `OpenWrtWalker.Normalize` | internal/netpolicy/openwrt.go:659-810 | the two passes over the sorted base chains and the routing rules give the stated evidence: mark, route, VPN route, guard, forwarding, support, coverage and what is missing |
| `OpenWrtNormalize.EvidenceForgetsMapOrder` | internal/netpolicy/openwrt.go:659-810 | reading the chain map in any other order gives the same evidence in every field, ties or not |
| `OpenWrtNormalize.RootsForgetMapOrder` | internal/netpolicy/openwrt.go:659-674 | reading the chain map in another order gives the same sorted base chains, or a tie in both |
| `OpenWrtNormalize.RoutedMeans` | internal/netpolicy/openwrt.go:764-775 | a route is selected exactly when the mark is known, the routing rules are all read, and one that applies to the client's packets with that mark looks up the table of the reported route; coverage needs a closed, supported sample besides |
| `OpenWrtExact.ClassifyReads` | internal/netpolicy/openwrt.go:745-763 | a supported classifier pass with a known mark is what is read of the classifiers for every interface no jump or return it took names |
| `OpenWrtExact.ForwardReads` | internal/netpolicy/openwrt.go:776-795 | for the same interfaces a supported forward pass denies exactly when a forwarding chain is read as a drop, and a guard means that some chain is for every interface but the VPN's |
| `OpenWrtExact.EvidenceReads` | internal/netpolicy/openwrt.go:659-810 | for the same interfaces supported evidence tells what is read: mark, forwarding and guard |
| `OpenWrtExact.RootsSound` | internal/netpolicy/openwrt.go:659-810 | for base chains in the order of the walk, supported evidence is true of every packet of the client, unless a jump or return that was taken names its interface or a pattern covers its ingress |
| `OpenWrtFollow.RootExact` | internal/netpolicy/openwrt.go:682-763 | the code's verdict and mark for a base chain are the kernel's unless a jump or return it took names the packet's interface or a pattern covers its ingress, and in any case exactly when they tell what is read |
| `OpenWrtExact.ClassifiersExact` | internal/netpolicy/openwrt.go:745-763 | what prerouting does with a packet that leaves by any interface, mark included, is what is read of the classifiers |
| `OpenWrtExact.ForwardExact` | internal/netpolicy/openwrt.go:776-795 | forwarding chains, or these and guards, drop a packet that leaves by any interface exactly when one of them is read so |
| `OpenWrtExact.RootsExact` | internal/netpolicy/openwrt.go:659-810 | where the base chains can be read for the packet's interface, the evidence is true of the packet exactly when it tells what is read |
| `OpenWrtEvidence.WalkedInOrder` | internal/netpolicy/openwrt.go:659-674 | the base chains walked are those of the profile, by the name of their hook and on one hook by ascending priority; a tie is two of them on one hook with one priority |
| `OpenWrtEvidence.KernelWalks` | internal/netpolicy/openwrt.go:665-674 | without a tie there is one order by ascending priority on each hook, and it is the order of the walk |
| `OpenWrtEvidence.EvidenceSound` | internal/netpolicy/openwrt.go:612-810 | with the base chains of each hook run by ascending priority, supported evidence is true of every packet of the client, unless a jump or return that was taken names its interface or a pattern covers its ingress |
| `OpenWrtEvidence.EvidenceExact` | internal/netpolicy/openwrt.go:612-810 | and for the packets left over it is true exactly when it tells what is read for their interface |
| `OpenWrtEvidence.SupportedProfile` | internal/netpolicy/openwrt.go:647-674 | supported evidence is about readable chains that are not only for IPv6, without a tie |
| `OpenWrtCoverage.SupportedMeans` | internal/netpolicy/openwrt.go:764-810 | supported evidence has every registered chain either walked from its hook or jumped to; it tells about forwarding exactly when there is a forwarding base chain; the missing route and the missing support are named exactly then |
| `OpenWrtCoverage.PlainProfile` | internal/netpolicy/openwrt.go:612-810 | a profile of base chains on their hooks whose rules name hosts and call nothing is supported exactly when a known mark selects a route, and its mark is known exactly when a classifier rule for the client sets one first |
| `OpenWrtExact.FollowedJumpMisleads` | internal/netpolicy/openwrt.go:705-721 | a jump that depends on the output interface is followed as if it always applied: a packet of that interface is accepted where the walk says drop |
| `OpenWrtExact.AcceptBehindMisleads` | internal/netpolicy/openwrt.go:705-726 | behind such a jump an accept the code refuses to decide lets a packet pass where the walk says drop |
| `OpenWrtExact.GuardMisleads` | internal/netpolicy/openwrt.go:705-733 | a guard behind such a jump is reported with full support, and a packet that leaves by another interface than the VPN's passes |
| `OpenWrtExact.WildcardIngressMisleads` | internal/netpolicy/openwrt.go:470-472 | an interface pattern is compared as a plain name, so a rule that applies is taken not to |
| `RoutePolicy.Explain` | internal/netpolicy/openwrt.go:491-611 | the reported device is given exactly when the route is a single unicast one, every row that may apply is readable with its own priority, and some row that applies looks up the reported table; selectors of IPv6 exclude a row |
| `RoutePolicy.ReadRows` | internal/netpolicy/openwrt.go:538-601 | the row loop fails exactly on an unreadable row or a repeated priority, and otherwise collects the tables that are looked up |
| `RoutePolicy.ReadingIsTrue` | internal/netpolicy/openwrt.go:547-600 | a row set aside does not apply to the packet, and a lookup does |
| `RoutePolicy.ExplainedMeans` | internal/netpolicy/openwrt.go:602-609 | readable rows explain a table exactly when a rule that applies looks it up, in particular whenever the kernel answers from it |
| `RoutePolicy.OrderDoesNotMatter` | internal/netpolicy/openwrt.go:602-609 | rows in another order give the same device or none, readability included |
| `RoutePolicy.LegibleIsRead` | internal/netpolicy/openwrt.go:540-602 | a plain lookup whose fields are all in order is never unreadable, and looks up the table it names: 255 for local, 254 for main, 253 for default |
| `RoutePolicy.SelectedMeans` | internal/netpolicy/openwrt.go:491-524 | the reported route has a table exactly when it is one unicast route through a device; it is the one it names, or main |
| `Nftables.LawsHaveModel` | internal/netpolicy/openwrt.go:198-216 | the assumed laws of address texts can be met |
| `LinuxPolicy.NormalizeNft` | internal/netpolicy/linuxwg.go:195-342 | the loop over rules computes the summary |
| `LinuxPolicy.FactsMeaning` | internal/netpolicy/linuxwg.go:228-293 | an understood rule without a prefix that holds the packet's addresses acts on the packet exactly when its selectors hold |
| `LinuxPolicy.SummaryTrue` | internal/netpolicy/linuxwg.go:206-331 | for every packet whose addresses no prefix holds, the summary of every rule list is true of first-match evaluation: verdict, mark and guards, for every output interface |
| `LinuxPolicy.SummaryMeans` | internal/netpolicy/linuxwg.go:308-331 | denied means drop, a guard means drop on every other interface even after several guards, forwarded means accept where no earlier guard drops |
| `LinuxPolicy.HostRulesSupported` | internal/netpolicy/linuxwg.go:206-331 | rules for hosts and the target, with a verdict, a mark or a guard, are always understood, in whatever order |
| `LinuxPolicy.PrefixMisleads` | internal/netpolicy/linuxwg.go:261-271 | with a prefix selector the summary can say denied where an earlier rule accepts |
| `LinuxPrefix.SpecialsMatch` | internal/netpolicy/linuxwg.go:225-331 | narrowing every prefix that holds a packet's address to that address, and emptying rules with one that does not, changes nothing for the packet |
| `LinuxPrefix.PrefixesIgnored` | internal/netpolicy/linuxwg.go:206-331 | for rules over addresses and prefixes, what the summary says of a source (verdict, mark, guards) is what first-match evaluation does without the rules that reach the packet through a prefix |
| `LinuxPrefix.ForPacketTrue` | internal/netpolicy/linuxwg.go:206-331 | resolved to one packet, every understood rule list has a summary that is understood and true of first-match evaluation |
| `LinuxPrefix.PrefixExact` | internal/netpolicy/linuxwg.go:206-331 | so the summary is right for a packet exactly when leaving out the rules that reach it through a prefix changes nothing |
| `LinuxPrefix.TargetPrefixMisleads` | internal/netpolicy/linuxwg.go:302-304 | a drop of a whole target prefix is skipped, and a later accept for a host inside it is reported as forwarded |
| `Certificate.VerifyCertificate` | internal/sshaccess/certificate.go:15-173 | one pass with a cursor, every access in bounds, accepts exactly the blobs whose decoded fields match |
| `Certificate.MatchExtensions` | internal/sshaccess/certificate.go:115-147 | the extension loop succeeds exactly on the allowed names, each once, in some order |
| `Certificate.ReadIdentity` | internal/sshaccess/certificate.go:51-88 | kind, nonce, key, serial, type, key ID and principal are read and compared |
| `Certificate.ReadScope` | internal/sshaccess/certificate.go:89-151 | validity, critical options, extensions and the reserved field are read and compared |
| `Certificate.ReadAuthority` | internal/sshaccess/certificate.go:152-172 | the CA key and a signature over everything before it, with nothing left over |
| `Certificate.AcceptedBlobs` | internal/sshaccess/certificate.go:15-173 | a blob is accepted exactly when it is the encoding of the request with some nonce, the allowed extensions in some order, the CA key and a verifying signature |
| `Certificate.OneBlobOneRequest` | internal/sshaccess/certificate.go:15-173 | two requests that accept one blob are equal in key, serial, key ID, principal, validity seconds, force command and extension flags |
| `Wire.DecodeInverse` | internal/sshaccess/certificate.go:25-50 | reading fields is the inverse of writing them, in both directions, with nothing left over |
| `Wire.TakeStrInverse` | internal/sshaccess/certificate.go:25-37 | a string is read exactly where one was written |
| `Wire.Reader.ReadStr` | internal/sshaccess/certificate.go:25-37 | the cursor moves over one string or the message does not decode |
| `Wire.Reader.ReadNumber` | internal/sshaccess/certificate.go:38-50 | the cursor moves over one number or the message does not decode |
| `ShellWords.Parse` | internal/sshcommand/gate.go:133-186 | the index loop computes the literal command grammar |
| `ShellWords.ReadPiece` | internal/sshcommand/gate.go:152-175 | one quoted run, quoted quote or plain character is read, or the word is refused |
| `ShellWords.ReadWord` | internal/sshcommand/gate.go:147-177 | one word is read up to a blank or the end, or refused |
| `ShellWords.RemoteArgument` | cmd/21pins/ssh.go:546-556 | the quoted words joined by blanks become the last argument, an empty list adds none, and a NUL is refused |
| `ShellWords.QuoteReadsBack` | cmd/21pins/ssh.go:504 | a quoted word is read back whatever it contains |
| `ShellWords.QuotingRoundTrip` | internal/sshcommand/gate.go:133-186 | the gate recovers an argument list from its quoted form exactly for one to eight safe words of at most 256 bytes in at most 2048 bytes |
| `ShellWords.AcceptedAsInShell` | internal/sshcommand/gate.go:133-186 | whatever the gate accepts is split and unquoted as a POSIX shell would |
| `ShellGate.ValidateRules` | internal/sshcommand/gate.go:55-85 | a rule list is valid exactly with its bounds, clean paths, no interpreters, safe words and distinct commands |
| `ShellGate.KeysDiffer` | internal/sshcommand/gate.go:78-82 | the joined command text tells commands apart |
| `ShellGate.Authorize` | internal/sshcommand/gate.go:187-197 | the program of the rule with exactly that command, or denied when there is none |
| `ShellGate.RunsOnce` | internal/sshcommand/gate.go:187-197 | at most one program runs for a word list |
| `ShellGate.Gate` | internal/sshcommand/gate.go:294-301 | parse, then authorise |
| `ShellGate.RemoteIsPosix` | cmd/21pins/ssh.go:504-556 | a shell reads any quoted argument list back, whatever its length |
| `ShellGate.GateUndoesQuoting` | internal/sshcommand/gate.go:133-197 | end to end: the client's quoted arguments run a rule's program exactly when they are that rule's command and the text fits in 2048 bytes |
| `ShellGate.AdmittedIsARule` | internal/sshcommand/gate.go:187-197 | whatever runs is a rule's program at a clean path that is no interpreter, for the words a shell would have read |
| `ShellGate.InterpretersRefused` | internal/sshcommand/gate.go:65-68 | no rule can name one of the interpreters, in whatever directory |
| `ShellGate.SafeRuleRuns` | internal/sshcommand/gate.go:55-197 | a rule for safe words without shell operators and a program at a clean path is accepted and runs, with its arguments, for exactly these words quoted |
| `ShellGate.ForcedIsPosix` | internal/sshcommand/gate.go:109-118 | a login shell reads the forced command as exactly the gate's argument list |
| `ShellGate.ForcedDetermines` | internal/sshcommand/gate.go:109-118 | equal forced commands mean equal binary, policy file, rules, fixture flag and scope |
| `Lease.RoleLimits` | internal/sshaccess/lease.go:328-359 | a requester's ceiling bounds lease, default and certificate lifetimes; root roles need explicit approval |
| `LeaseEffects.RoleForMeans` | internal/sshaccess/lease.go:328-359 | a role is granted exactly to its named requesters, with every limit lowered to the requester's own ceiling |
| `LeaseEffects.GrantedMeans` | internal/sshaccess/lease.go:360-385 | a request is granted exactly within these limits, for the asked time or else the default |
| `LeaseService.Service.Open` | internal/sshaccess/lease.go:360-414 | opens or returns the lease of a key, whatever the map order |
| `LeaseService.Service.Get` | internal/sshaccess/lease.go:423-436 | reads one lease, expiring it |
| `LeaseService.Service.List` | internal/sshaccess/lease.go:437-450 | reads every visible lease, expiring each at the time it is read |
| `LeaseService.Service.Approve` | internal/sshaccess/lease.go:451-472 | activates a pending lease for another actor under the pinned policy |
| `LeaseService.Service.Close` | internal/sshaccess/lease.go:473-501 | closes a live lease and leaves a closed one alone |
| `LeaseService.Service.Issue` | internal/sshaccess/lease.go:502-587 | reserves the serial on disk, then asks the signer, then records; each step with its own fault |
| `LeaseService.Service.SaveState` | internal/sshaccess/lease.go:588-633 | the state is replaced whole or not at all |
| `LeaseRuns.RunKeeps` | internal/sshaccess/lease.go:360-587 | every run of calls with lost and unseen writes, signer failures and edited configurations keeps the invariant and only extends what is stored |
| `LeaseRuns.StepKeeps` | internal/sshaccess/lease.go:360-587 | each call keeps unique keys, cleared active leases, rising serials and backed issuance records |
| `LeaseRuns.SerialsNeverReused` | internal/sshaccess/lease.go:549-556 | over every run the serials that reach the signer rise strictly and are reserved on disk |
| `LeaseRuns.ActiveWasCleared` | internal/sshaccess/lease.go:394-470 | every active lease was preapproved without explicit approval, or approved by an approver who is not its requester; a root lease always by an approver; no two leases share a key |
| `LeaseRuns.ClosedStaysClosed` | internal/sshaccess/lease.go:415-501 | a lease that is not live never changes again, and no later call gets the signer asked for it |
| `LeaseRuns.IssuedIsBounded` | internal/sshaccess/lease.go:502-587 | a certificate handed out is on record, for an active lease with the pinned key and policy, expires after now and within every ceiling, and carries a serial above all earlier ones |
| `LeaseRuns.RetryReturnsTheLease` | internal/sshaccess/lease.go:380-393 | asking again with a key on record succeeds exactly for the repeated request of a live lease, which is returned unchanged |
| `LeaseEffects.OpenGrants` | internal/sshaccess/lease.go:360-414 | with a new key a lease is opened exactly on such a request; it holds what was asked, runs for that time under today's scope, and is active at once exactly for a preapproved requester without explicit approval |
| `LeaseEffects.GetShows` | internal/sshaccess/lease.go:423-436 | a read shows the requester or an approver, and no one else, the lease as it is, or expired once its time is over |
| `LeaseEffects.ListShows` | internal/sshaccess/lease.go:437-450 | a listing shows exactly the visible leases of the objective and expires exactly those whose time is over |
| `LeaseEffects.ApproveActivates` | internal/sshaccess/lease.go:451-472 | an approval is granted exactly to an authorised approver other than the requester, for a lease pending, open and under an unchanged scope, which is then active in that approver's name |
| `LeaseEffects.CloseCloses` | internal/sshaccess/lease.go:473-501 | a close is granted exactly to the requester or an approver, a revocation only to an approver, for the known reasons; once written, a live lease has exactly the asked status, reason and time, and every other lease is as it was |
| `LeaseEffects.RunSilent` | internal/sshaccess/lease.go:502-587 | once a lease is not live, no later run asks the signer for it |
| `LeaseEffects.CloseSilences` | internal/sshaccess/lease.go:473-587 | end to end: after a close that was written every later run leaves the record as the close left it and asks the signer for nothing on that lease |
| `LeaseEffects.EntitledMeans` | internal/sshaccess/lease.go:508-548 | an issue is entitled exactly for the requester's own active lease in time with its key, an unchanged scope and authorization; the certificate ends at the earliest of three ends in whole seconds |
| `LeaseEffects.IssueAsks` | internal/sshaccess/lease.go:508-566 | the signer is asked exactly when the issue is entitled, a serial is left and reserved on disk and the forced command can be made, and for exactly what the lease and the role say |
| `LeaseEffects.IssueRecords` | internal/sshaccess/lease.go:566-587 | the signer's certificate goes on record exactly when it answered and time, scope and authorization still hold, and is handed out exactly when that write was also seen to succeed |
| `LeaseRuns.CurrentCeiling` | internal/sshaccess/lease.go:536-545 | the lifetime is within the current ceiling exactly when no other limit exceeds the current lifetime by a whole second |
| `LeaseRuns.OldLifetimeOvershoots` | internal/sshaccess/lease.go:522-545 | a service started before the lifetime was cut still hands out a certificate for the old lifetime on a lease opened after |
| `LeaseRuns.EntitledBounds` | internal/sshaccess/lease.go:508-548 | what entitles an issue, and the bounds on the expiry it asks for |
| `LeaseRuns.AskedFrom` | internal/sshaccess/lease.go:549-572 | the request that reaches the signer carries the reserved serial, the lease's key and principal, and the role's flags and forced command |
| `Registry.ValidateObjects` | internal/netpolicy/registry.go:72-97 | objects are accepted exactly when each is acceptable and identifiers, names within a kind and endpoints are distinct |
| `Registry.Find` | internal/netpolicy/registry.go:163-170 | the first object of a kind that answers to a name or identifier |
| `Registry.BindRefs` | internal/netpolicy/registry.go:193-211 | all four references at their current revisions, or refused |
| `Registry.Store.Create` | internal/netpolicy/registry.go:212-228 | adds an object with bound references, or leaves the store as it was |
| `Registry.Store.Change` | internal/netpolicy/registry.go:235-251 | edits the object found and binds it again, or leaves the store as it was |
| `Registry.Store.Rename` | internal/netpolicy/registry.go:229-231 | changes the name |
| `Registry.Store.Rebind` | internal/netpolicy/registry.go:232-234 | changes the binding and moves on one revision |
| `Registry.Store.Mutate` | internal/netpolicy/registry.go:136-161 | a change is stored only when the whole registry is still consistent |
| `Registry.ChangesKeep` | internal/netpolicy/registry.go:136-251 | over every run of changes, every stored reference names an object of its kind at a revision it has had, no object is lost or goes back, and one revision is one binding |
| `Registry.RenameChangesOnlyTheAlias` | internal/netpolicy/registry.go:229-251 | a rename that succeeds changes one alias and nothing else |
| `RegistryEffects.BoundMeans` | internal/netpolicy/registry.go:193-211 | a reference is fixed to the object of its kind that answers to its name or identifier, exactly when it gives no revision or that object's |
| `RegistryEffects.CreateAdds` | internal/netpolicy/registry.go:212-228 | creating adds exactly the given object, at revision 1 and with its references fixed, whenever it comes without a reference, they can be fixed and it joins the others; otherwise nothing changes |
| `RegistryEffects.RebindSets` | internal/netpolicy/registry.go:232-251 | rebinding gives one object its next revision and exactly the new binding with its references fixed, or changes nothing |
| `RegistryEffects.RenameSucceeds` | internal/netpolicy/registry.go:229-251 | a rename succeeds exactly when the new name is a free name that suits the object and the object's references are all current |
| `RegistryEffects.UnknownChangesNothing` | internal/netpolicy/registry.go:235-249 | a change that names no object changes nothing |
| `Closure.ResolveRef` | internal/netpolicy/registry.go:178-192 | the object with exactly that revision, stale, or missing |
| `Closure.Walk` | internal/netpolicy/question.go:163-192 | one visit adds only what every closed set would hold and leaves everything it adds covered; it fails only when no closed set of 64 exists |
| `Closure.Select` | internal/netpolicy/question.go:163-197 | the selection succeeds exactly when a closed set of at most 64 objects holds the roots, is then the least one, and terminates on cycles |
| `Questions.Question` | internal/netpolicy/question.go:163-243 | a question has its request exactly when its references lead to a closed set of at most 64 objects and all cited rules are there; the request lists the least such set and carries nodes and unnamed rules in order |
| `Questions.OneRequest` | internal/netpolicy/question.go:212-243 | a question has one request, whatever the order in which the map yields the selection |
| `Questions.AskedAgain` | internal/netpolicy/question.go:163-243 | after any change of the registry the same question has a request exactly when all objects the first one listed still have their revisions, and then it is that request |
| `Questions.ReboundDiffers` | internal/netpolicy/question.go:217-243 | once a listed object has been rebound, no question whatsoever has the same digest |
| `Questions.DigestAfterChanges` | internal/netpolicy/registry.go:212-251 | the same over every run of creating, renaming and rebinding: the digest stays, or the question fails and every other digest differs |
| `Questions.RenamesKeepTheDigest` | internal/netpolicy/registry.go:229-251 | however objects are renamed, every question keeps its request and so its digest |
| `Questions.RebindChangesTheDigest` | internal/netpolicy/registry.go:232-251 | after a successful rebinding of a listed object the question fails, and no other question has its digest |
| `QuestionDigest.MetadataFollowsNodes` | internal/netpolicy/question.go:212-223 | the sorted node list depends only on the selection, not on map order, and tells selections apart |
| `QuestionDigest.DigestDetermines` | internal/netpolicy/policy.go:56-71 | digests are equal exactly when capability and fields agree and the four lists agree up to order |
| `PolicyRules.CanonicalTuple` | internal/netpolicy/policy.go:72-102 | a tuple with current references and a sealed realm, or the first reason against it |
| `PolicyRules.NormalizeRule` | internal/netpolicy/policy.go:103-131 | a rule with canonical, distinct tuples and a bound path, or the first reason against it |
| `PolicyRules.Overlap` | internal/netpolicy/policy.go:132-143 | a clash is reported exactly when a tuple is declared twice |
| `PolicyRules.Book.PutRule` | internal/netpolicy/policy.go:144-169 | a rule replaces its namesake at the next revision or is added; a failed attempt changes nothing |
| `PolicyRules.PutKeeps` | internal/netpolicy/policy.go:144-169 | no tuple is ever declared twice, stored tuples are sealed, aliases and identifiers stay distinct, other rules are untouched |
| `PolicyRules.ResolveTuple` | internal/netpolicy/policy.go:185-218 | one tuple against every declared tuple in order |
| `PolicyRules.ResolveTuples` | internal/netpolicy/policy.go:176-220 | 1 to 256 tuples, each resolved, or the first failure |
| `PolicyRules.SealedIsCanonical` | internal/netpolicy/policy.go:72-102 | a stored tuple that still has a canonical form is its own |
| `PolicyRules.ResolvesToTheDeclaringRule` | internal/netpolicy/policy.go:176-220 | a tuple resolves exactly when its canonical form is declared, its rule still normalises and no stale declaration is about the same traffic; the rule is the only one that declares it |
| `PolicyEffects.CanonicalMeans` | internal/netpolicy/policy.go:72-102 | a tuple has a canonical form exactly when its references lead to a network and a service it fits: family, transport, mode, port, address and realm |
| `PolicyEffects.NoRepeatsMeans` | internal/netpolicy/policy.go:132-143 | no clash means exactly that no rule declares a tuple twice and no two rules declare the same one |
| `PolicyEffects.PutStores` | internal/netpolicy/policy.go:144-169 | a rule is stored exactly when it comes without a reference, normalises and shares no tuple with a rule of another name; it then says what was given, tuples in canonical form, along its path |
| `PolicyEffects.PutResolves` | internal/netpolicy/policy.go:144-220 | end to end: every tuple a rule was stored with resolves to that rule's decision, path and flags, unless a declaration of the same traffic has gone stale |
| `Verdicts.SameRefs` | internal/netpolicy/evidence.go:61-75 | the sorted comparison holds exactly for equal multisets |
| `Verdicts.ValidFact` | internal/netpolicy/evidence.go:76-104 | a fact counts exactly when it was checked, is about this question, current, of a known assurance, and its windows fit |
| `Verdicts.Judge` | internal/netpolicy/verify.go:113-134 | one property: contradicted by any denying fact, else passed by any fact, else missing, with identifiers and assurances of the facts that speak for it, in order |
| `Verdicts.SpeakersAre` | internal/netpolicy/verify.go:115-123 | the facts used for a property are exactly the given ones that are valid, about it and about its scope |
| `Verdicts.Evaluate` | internal/netpolicy/verify.go:81-146 | every required pair is judged; the verdict, the whole missing list and all evidence used follow |
| `Verdicts.VerifiedMeans` | internal/netpolicy/verify.go:81-146 | verified exactly when the profile is finite, every scope has requirements, each is shown and none denied, and cleanup held |
| `Verdicts.ContradictionMeans` | internal/netpolicy/verify.go:125-128 | some result is contradicted exactly when a valid fact denies a required property |
| `Verdicts.CompletenessMeans` | internal/netpolicy/verify.go:99-140 | nothing is missing exactly when every scope has requirements and each is shown |
| `Verdicts.VerdictIgnoresOrder` | internal/netpolicy/verify.go:81-146 | the verdict does not depend on the order of facts, or of the references in them or in the question |
| `VerdictLife.MadeFactCounts` | internal/netpolicy/evidence.go:49-104 | a fact made for one question counts for another exactly when target, objects and policies are the same, within ten minutes, with a known assurance, and with every window closed before it was made |
| `VerdictLife.OverlongNeverCounts` | internal/netpolicy/evidence.go:76-79 | a fact that was not checked, or lives longer than ten minutes, never counts |
| `VerdictLife.AnsweredForTenMinutes` | internal/netpolicy/verify.go:81-146 | end to end: a completely answered question about direct traffic is verified for exactly ten minutes when all answers are yes and the cleanup held, and violated for exactly these when a required one is no |
| `VerdictLife.ProfilesAre` | internal/netpolicy/verify.go:50-80 | what a question about a gateway or a VPN may require |
| `KeyStore.MigrateKeys` | internal/store/store.go:204-233 | blank legacy entries go, others without keys get an active key, and the legacy map is brought in line, whatever the map order |
| `KeyStore.MigrationSettles` | internal/store/store.go:204-233 | after migration the state is consistent, no legacy secret is lost, blank entries lead to no keys and no existing key set changes |
| `KeyStore.MigrationIsIdle` | internal/store/store.go:204-233 | a consistent state is left as it is |
| `KeyStore.Store.Sync` | internal/store/store.go:643-660 | the legacy entry becomes the active secret or goes |
| `KeyStore.Store.SaveState` | internal/store/store.go:235-287 | a failed save restores what is stored, or leaves memory ahead of it |
| `KeyStore.Store.SetProviderKey` | internal/store/store.go:289-318 | a new active key, every earlier one revoked |
| `KeyStore.Store.RotateStart` | internal/store/store.go:319-339 | a pending key, unless one is pending |
| `KeyStore.Store.RotateVerify` | internal/store/store.go:340-361 | the pending key is marked verified |
| `KeyStore.Store.RotateCommit` | internal/store/store.go:362-412 | a verified pending key becomes active and the active one steps down |
| `KeyStore.Store.RotateRollback` | internal/store/store.go:413-441 | the previous key becomes active and the active one previous |
| `KeyStore.Store.RevokePrevious` | internal/store/store.go:442-466 | the previous key is revoked |
| `KeyStore.Store.RevokeProviderKey` | internal/store/store.go:467-500 | any key but the active one is revoked |
| `KeyStore.Store.GetProviderKey` | internal/store/store.go:517-527 | the secret in use |
| `KeyStore.InUseIsLegacy` | internal/store/store.go:517-527 | in a consistent state the secret in use is the legacy entry, and there is one exactly with an active key |
| `KeyStore.RunKeeps` | internal/store/store.go:204-527 | over every run of calls, failed saves and restarts: at most one active and one pending key per provider, pointers name keys of their status, the legacy map equals the active secrets, and on disk a revoked key stays revoked |
| `KeyUse.SetTakesOver` | internal/store/store.go:289-318 | setting a key needs a provider and a secret and nothing else; that secret is then in use, every earlier key of the provider is revoked, and other providers are untouched |
| `KeyUse.SetStaysInUse` | internal/store/store.go:204-527 | a secret that was set and saved is in use, in memory and on disk, after every later run without another Set, Commit or Rollback for the provider |
| `KeyUse.RunUses` | internal/store/store.go:204-527 | over every run without one of these for a provider, with failed saves and restarts, the same secret stays in use for it |
| `KeyUse.CommitHandsOver` | internal/store/store.go:362-412 | a verified pending key takes over; the active one is revoked or kept as the previous one until the window ends |
| `KeyUse.RotationTakesOver` | internal/store/store.go:319-412 | end to end: through a rotation the old secret stays in use until the commit, which is refused before the new key is verified, and then the new one is; other calls and restarts in between change nothing |
| `KeyUse.RotationUndone` | internal/store/store.go:319-441 | a rotation that kept the previous key is undone by one rollback |
| `KeyUse.CommitNeedsVerify` | internal/store/store.go:319-412 | from a state without a rotation, over every run in which no key of the provider is verified, no commit for it is granted |
| `KeyUse.RollbackHandsBack` | internal/store/store.go:413-441 | a rollback brings the previous key's secret back into use and makes the active key the previous one |
| `KeyUse.RevokeRevokes` | internal/store/store.go:467-500 | revoking works exactly for a known key that is not active; that key is revoked now, pointers to it go, and every other key and what is in use stay |
| `KeyUse.PreviousIsRevoked` | internal/store/store.go:442-466 | the previous key can be revoked exactly when there is one, and no rollback is possible after that |
| `KeyRotation.AtMostOne` | internal/store/store.go:289-527 | two keys that are both active, or both pending, are the same key |
| `KeyRotation.CommitKeeps` | internal/store/store.go:362-412 | a commit keeps the key set orderly and revoked keys revoked |
| `KeyRotation.RollbackKeeps` | internal/store/store.go:413-441 | so does a rollback |
| `KeyRotation.DropKeeps` | internal/store/store.go:467-500 | so does revoking a key that is not active |
| `KeyRotation.RollbackUndoesCommit` | internal/store/store.go:362-441 | a commit with a grace window followed by a rollback makes the earlier key active again and touches only the two keys |
| `KeyRotation.RollbackAtAnyTime` | internal/store/store.go:413-441 | a rollback works exactly when there are a previous and an active key, whatever the time |
| `KeyRotation.CommitLeavesPrevious` | internal/store/store.go:384-409 | a commit leaves an earlier previous key as it was; its pointer stays exactly when there was no active key |
| `StageJournal.Journal.State` | scripts/validate-openwrt-fw4.py:47-65 | the last stage that passed, the first that failed, and the first without a result; refused exactly when a record is damaged |
| `StageJournal.Journal.Start` | scripts/validate-openwrt-fw4.py:66-74 | a start record is written exactly when starting is allowed |
| `StageJournal.Journal.Finish` | scripts/validate-openwrt-fw4.py:75-84 | a result is written exactly for a started stage without one, or the cleanup |
| `StageJournal.Journal.ReserveBoot` | scripts/validate-openwrt-fw4.py:43-46 | the boot token is taken at most once |
| `StageJournal.StartsOnlyNext` | scripts/validate-openwrt-fw4.py:66-74 | a stage starts exactly when it is the next one, every earlier one passed, no record is damaged, and the run is not closed |
| `StageJournal.StartedArePrefix` | scripts/validate-openwrt-fw4.py:17-84 | over every run the started stages are a prefix of the stages and each but the last has passed |
| `StageJournal.RunKeeps` | scripts/validate-openwrt-fw4.py:17-84 | order is kept and committed records never change |
| `StageJournal.NothingStartsAfter` | scripts/validate-openwrt-fw4.py:66-71 | after a failed stage, a failure marker, a cleanup or a damaged record no stage starts any more |
| `StageJournal.NothingStartsWhileInterrupted` | scripts/validate-openwrt-fw4.py:70-71 | while a started stage has no result nothing starts |
| `StageJournal.OneBoot` | scripts/validate-openwrt-fw4.py:43-46 | a run grants at most one boot |
| `StageJournal.FirstBootGranted` | scripts/validate-openwrt-fw4.py:43-46 | a boot that was not taken before is granted |
| `StageJournal.WrittenIsRecorded` | scripts/validate-openwrt-fw4.py:66-84 | an allowed start or result that was written is on file exactly as given; a second result, and one for a stage that has not started, changes nothing |
| `StageJournal.CleanupCloses` | scripts/validate-openwrt-fw4.py:66-84 | after a written cleanup no stage starts |
| `StageJournal.PassingRunCompletes` | scripts/validate-openwrt-fw4.py:17-84 | a run in which every stage passes in turn gets through all of them |
| `Sorting.SortForgetsOrder` | internal/netpolicy/evidence.go:61-75 | sorting by distinct ranks forgets the input order |
| `Text.SplitJoin` | internal/sshcommand/gate.go:78 | splitting undoes joining when no piece holds the separator |

## Left out

- OpenWrtFollow.ReadingExact: nothing is read where the packet comes upon a rule that is not valid or whose address texts are neither addresses, prefixes nor the known set, upon a chain that is not listed or not readable, or upon calls nested deeper than the limit; set membership is taken as reported.
- OpenWrtEvidence.EvidenceExact: for the same reason stated where the base chains can be read for the packet's interface; `OpenWrtEvidence.EvidenceSound` needs no such condition.
- OpenWrtWalker.Normalize: starts after the checks of scope, time and logical binding, which are given by the context; the digests are not kept.
- LinuxPrefix.PrefixExact: stated for match-then-verdict rules over IPv4 addresses and prefixes.
- RoutePolicy.ExplainedMeans: the client's own addresses are IPv4.
- DnsName.DecodeName: names are lowered byte by byte in ASCII, because printable labels hold no other letters.
- WireGuardConfig.ReadPeers: keys are checked by the shape of their base64 text, because decoding is not part of this model; prefix texts are opaque and compared by overlap laws.
- Enrollment.Helper.Enrol: the output of `wg` is taken as the live map; removal of orphan temporary files, file ownership and locks are not modelled.
- Certificate.VerifyCertificate: starts from the decoded blob and a decoded CA key; base64, field splitting, SHA-256 and Ed25519 are parameters or injective.
- ShellWords.Parse: works on characters with their UTF-8 lengths, because invalid UTF-8 is refused before anything is read.
- ShellGate.Gate: ownership checks of files, the policy file, the environment and the final `exec` are not modelled.
- LeaseService.Service.Issue: public keys are their canonical form and durations are numbers, so two texts of one key or duration are one here; display fields copied into a lease are not kept.
- Registry.Store.Create: the checks on an object's own fields are the parameter `fits`; importing several objects at once is not modelled.
- Questions.Question: the references to start from, a baseline's included, and the cited rules are given; how an operation picks them is not modelled, and which error a failing question reports is not kept.
- QuestionDigest.DigestDetermines: names and identifiers are ordered by injective numberings that stand for byte order.
- Verdicts.Evaluate: assessment identifiers, display context and the list of exclusions are not kept.
- KeyStore.RunKeeps: tokens, grants, usage and catalogs in the same file are not modelled, and provider names and secrets are taken as normalised.
- StageJournal.Journal.State: that a record no longer matches its digest or stage is one flag for all records, set by an event of the run.
- The HTTP gateway, upstream forwarding, hosted attestation, website and command-line parsing: plumbing that would only add easy members.
- Probes, raw sockets, namespaces, ioctls, `flock` and file modes: operating-system calls; transactions are taken as exclusive.
- `validateConfig` and `validObject` as loops: the predicates they decide are used instead.
- Pin engine, spend counters, model catalogs, receipts and discovery: mostly single-branch facts.
