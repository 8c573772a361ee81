# Models and proofs for dnsmasq and the C++ demangler

Two programs keep small, heavily shared data structures by hand: dnsmasq, a DNS forwarder and
DHCP server, and the demangler of libiberty, which turns mangled C++ names into components.
This project models how they keep them and proves what the code relies on.

- `cache/`: the DNS cache. A fixed set of records is threaded through a doubly linked LRU list,
  singly linked hash chains with a class order, and a pending batch. `CacheState` gives the
  state and the joint invariant; the other modules give each operation as a function with its
  exact effect; `CacheRuns` proves what holds over all runs; the class `Cache.DnsCache` keeps
  the links in place and is proved against those functions.
- `demangle/`: the parser of the demangler. `Grammar` is the grammar as the parser reads it,
  with room for any number of components, and with the budget of every production; the class
  `Parser.Demangler` is the parser with its arena of 2 * len entries and its table of len
  substitutions; both are proved equal. `Mangling` is an independent compressing mangler, and
  `RoundTrip` proves that the parser reads what it writes; `Symbols` and `SymbolTrip` do the same
  for whole symbols. `Lengths` says exactly where the
  source's conversion of a name's length to int, and its handling of vendor operators, takes it
  astray.
- `wire/`: names in DNS packets (decoding, comparing, skipping), the checksum of the questions
  and what it tells apart, resource records written up to a limit and read back, the domain
  search option with its in-place compressor, and reverse names.
- `forward/`: the table of forwarded queries with its shared random sockets, what a reply does to
  its query, and to whom it is passed on.
- `dhcp6/`: DHCPv6 packets under construction, the choice of lease times, identity associations
  with times filled in afterwards and as a client reads them, and relayed messages.
- `dhcp/`: the searches for a free address, how long an offered one is kept, the bookkeeping of
  leases, what the script is told of them, and what becomes of the names they lose.
- `common/`: optional values, numbers in network order, decimal numerals, and names of hosts.

Each part has value-level functions, lemmas about them, and a class or methods with the source's
loops and in-place updates, proved equal to the functions.

Some things the code does that its documentation or a first reading would not suggest:

- A name's length is read as a long and used as an int. One that is negative as an int passes
  the test for what is left and takes the position back: `_Z2147483648a`; another can become
  the right one: `_Z4294967297a` is read like `_Z1a` (`Lengths.TooLongForAnInt`). The budgets
  and the equality of the bounded parser hold up to the first such length and, in a text
  without one, for the whole text (`Lengths.GoesBackExactly`, `Demangling.ReadName`). The same
  holds for a vendor operator with two operands in an expression, whose code the source reads
  through the wrong member of a union (`cp-demangle.c:2818`, `Lengths.VendorIsLost`): `Dtv21a`
  is a type that has one (`Lengths.VendorText`).
- `d_prefix` forgets a substitution that is refused: nothing read so far is left, and the loop
  goes on (`cp-demangle.c:1319-1355`). The grammar does the same.
- Of the operator table the binary search never finds `at` and `az`, which are out of order at
  the end; `Operators.OperatorFound` says exactly what is found.
- The domain search option does not give back a name with an empty label, which `check_name`
  accepts: `a..b` comes back as two names (`DomainSearchOption.EmptyLabelSplits`);
  `DomainSearchOption.OptionDecodesExactly` says exactly when the names come back.
- The test of an IPv6 prefix's size lets through 1 to 3 bits more than a multiple of 8; the
  printed name then covers only part of the prefix (`Arpa.PrefixNamesAll`).
- `address_available` compares the address with the first context's own address in every turn of
  its loop, so that the own address of a later one passes (`Allocation.OwnAddressPasses`,
  `Allocation.RefusedExactly`).
- `do_script_run` does not announce a lost name if its lease loses another one before it ran:
  `kill_name` drops the first one. Over a run all losses are announced or still wait exactly if
  that does not happen (`LeaseLosses.LossesKept`); a lease renamed twice between two runs of the
  script is one that loses one (`LeaseLosses.ThreeNames`).

- An address that was offered is kept for its client for PING_CACHE_TIME after the offer that made
  the record of it, not after the last offer (`Offers.OneClientEach`, `Offers.NotRenewed`).
- The script is told that a lease is deleted even if it was never told that it was added
  (`LeaseEnds.DeletedNotAdded`); `LeaseEnds.DeletionsOfAdded` says exactly when that happens.

## Model

| member | source | states |
|---|---|---|
| `CacheRuns.StepKeepsValid` | external/dnsmasq/src/cache.c:102-646 | every call (start, insert, link, end, both lookups, hosts record, rehash, reload) keeps the joint invariant: LRU list and batch partition the records, used before free, every used LRU record hashed once in its bucket, chains ordered reverse/other/immortal, CNAME links intact |
| `CacheRuns.RunKeepsValid` | external/dnsmasq/src/cache.c:102-646 | the joint invariant holds after every sequence of allowed calls |
| `CacheRuns.LiveCnameHasItsTarget` | external/dnsmasq/src/cache.c:238-251 | in every reachable state a cached CNAME that is_outdated_cname_pointer accepts points at a record in use, hashed, and of the same incarnation it was linked to |
| `CacheRuns.FreeingInvalidates` | external/dnsmasq/src/cache.c:175-200 | freeing a record outdates every CNAME to it, and any later use of the record that carries the next uid keeps them outdated |
| `CacheRuns.BatchIsInvisible` | external/dnsmasq/src/cache.c:351-475 | in every reachable state no record of the pending batch is in a chain or in the LRU list |
| `CacheRuns.FailedBatchStaysHidden` | external/dnsmasq/src/cache.c:366-497 | after an insertion error no call before the next start makes any record of the batch visible |
| `CacheLookup.LookupByNameExact` | external/dnsmasq/src/cache.c:499-581 | the lookup by name answers exactly the records found live: hosts and DHCP ones apart, cached ones as a prefix of the LRU list; no record twice, nothing else changed, and the walk stops after them |
| `CacheLookup.FoundMembers` | external/dnsmasq/src/cache.c:499-581 | the answers of a lookup are exactly the matching records of the chain that are not dead when scanned |
| `CacheLookup.MatchesShareBucket` | external/dnsmasq/src/cache.c:136-151 | every hashed record that matches a name is in that name's chain |
| `CacheLookup.MoveUpKeepsInv` | external/dnsmasq/src/cache.c:534-556 | moving an answered record up its chain (round robin) keeps the invariant |
| `CacheReverse.LookupByAddrExact` | external/dnsmasq/src/cache.c:583-646 | the lookup by address, although it leaves each chain at the first non-reverse record, answers all unexpired reverse records of the address, the cached ones as a prefix of the LRU list |
| `CacheReverse.NoReverseAfter` | external/dnsmasq/src/cache.c:602-625 | no reverse record follows the record at which the search leaves a chain |
| `CacheScan.ScanNameTrims` | external/dnsmasq/src/cache.c:277-306 | the scan of one chain keeps the invariant and frees only records with a reason (expired, clashing, outdated) |
| `CacheScan.ScanNameStuck` | external/dnsmasq/src/cache.c:277-306 | the scan fails without freeing anything exactly if a hosts or DHCP record of the name comes first |
| `CacheScan.ScanNameClears` | external/dnsmasq/src/cache.c:277-306 | a scan that does not fail frees every cached record of the chain that expired or clashes |
| `CacheScan.ScanAllTrims` | external/dnsmasq/src/cache.c:308-341 | the scan of all chains keeps the invariant and frees only records that expired or clash |
| `CacheScan.ScanAllClears` | external/dnsmasq/src/cache.c:308-341 | the scan of all chains, although it stops in each at the immortal records, frees every cached record that expired or clashes |
| `CacheScan.ScanAllKeepsShadow` | external/dnsmasq/src/cache.c:308-341 | a scan that frees nothing does not change which names hosts records shadow |
| `CacheAlloc.AllocateExact` | external/dnsmasq/src/cache.c:397-452 | the allocation loop bails out exactly if nothing is free or expired and the oldest record's name is shadowed by a hosts or DHCP record; it gives up an unexpired record only if nothing is free or expired |
| `CacheAlloc.SpillOldest` | external/dnsmasq/src/cache.c:421-437 | freeing the oldest record by its own name and address fails exactly if that name is shadowed |
| `CacheInsert.InsertKeepsValid` | external/dnsmasq/src/cache.c:366-474 | an insertion keeps the invariant, puts the record it returns in front of the batch with the given name, address, flags and time, and shows nothing new; a failed one leaves the batch as it was |
| `CacheInsert.InsertLosesOnly` | external/dnsmasq/src/cache.c:382-452 | an insertion discards an unexpired, non-clashing record only if no free and no expired record is left |
| `CacheInsert.InsertFailsExactly` | external/dnsmasq/src/cache.c:382-452 | an insertion fails exactly if a hosts or DHCP record clashes, the LRU list is empty, a full cache's oldest record is shadowed, or a long name finds no block |
| `CacheInsert.UnsharedNameInserts` | external/dnsmasq/src/cache.c:382-452 | with no hosts or DHCP record sharing a cached name, a non-empty LRU list and a short name, an insertion always succeeds |
| `CacheInsert.HashKeepsChain` | external/dnsmasq/src/cache.c:153-173 | cache_hash links a record where the class order of the chain is kept |
| `CacheBatch.StartInsertFreesBatch` | external/dnsmasq/src/cache.c:351-364 | starting an insert returns every pending record to the free end of the LRU list and changes nothing else |
| `CacheBatch.LinkKeepsValid` | external/dnsmasq/src/rfc1035.c:940-981 | linking a pending CNAME to the newest record of the batch keeps the invariant |
| `CacheBatch.EndInsertCommitsBatch` | external/dnsmasq/src/cache.c:477-497 | the commit makes the whole batch visible at once, frees CNAMEs without a target, and changes no other record |
| `CacheTable.AddHostKeepsValid` | external/dnsmasq/src/cache.c:649-715 | adding a new hosts or DHCP record keeps the invariant; what it changes is CacheHosts.AddHostEffect |
| `CacheHosts.AddHostEffect` | external/dnsmasq/src/cache.c:649-715 | a new hosts or DHCP record is the next record, stands in the chain of its name's bucket and in no other, every record hashed before is still in its chain, and nothing else is added or changed |
| `CacheHosts.NewHostIsNamed` | external/dnsmasq/src/cache.c:499-715 | the next lookup by a name that the new record has, with matching flags, answers it if it is live |
| `CacheHosts.NewHostIsAddressed` | external/dnsmasq/src/cache.c:583-715 | the next lookup by its address answers a new reverse record that has not expired |
| `CacheTable.RehashKeepsRecords` | external/dnsmasq/src/cache.c:102-134 | a larger table holds exactly the same records and keeps the invariant |
| `CacheTable.ClearKeepsValid` | external/dnsmasq/src/cache.c:875-893 | the clearing loop leaves only DHCP records hashed, every LRU record free, and a batch in progress as it is |
| `Cache.DnsCache.constructor` | external/dnsmasq/src/cache.c:75-96 | a new cache is empty and valid |
| `Cache.DnsCache.Init` | external/dnsmasq/src/cache.c:75-96 | all records start free in the LRU list, linked both ways |
| `Cache.DnsCache.CacheUnlink` | external/dnsmasq/src/cache.c:215-226 | one record leaves the doubly linked LRU list; the rest stays linked in the same order |
| `Cache.DnsCache.CacheLink` | external/dnsmasq/src/cache.c:203-212 | a record becomes the head of the doubly linked LRU list |
| `Cache.DnsCache.CacheFree` | external/dnsmasq/src/cache.c:175-200 | the record is free, has the next uid or none as its flags say, and is the tail of the LRU list |
| `Cache.DnsCache.ScanFreeName` | external/dnsmasq/src/cache.c:277-306 | the in-place scan of a chain ends in the state and with the answer of the scan function |
| `Cache.DnsCache.ScanFreeAll` | external/dnsmasq/src/cache.c:308-341 | the in-place scan of all chains ends in the state of the scan function |
| `Cache.DnsCache.CacheScanFree` | external/dnsmasq/src/cache.c:264-341 | cache_scan_free on the linked structures is the scan the lemmas above are about |
| `Cache.DnsCache.FindByName` | external/dnsmasq/src/cache.c:499-581 | the resumable lookup: from nothing it sweeps and answers the first match, from an answer it follows next; the structures end as the sweep function says |
| `Cache.DnsCache.AllByName` | external/dnsmasq/src/cache.c:499-581 | calling the lookup from nothing until nothing yields exactly the live matches, hosts first, without repeats, and keeps the cache valid |
| `Cache.DnsCache.FindByAddr` | external/dnsmasq/src/cache.c:583-646 | the resumable lookup by address on the linked structures |
| `Cache.DnsCache.AllByAddr` | external/dnsmasq/src/cache.c:583-646 | iterating the lookup by address yields exactly the unexpired reverse records of the address, without repeats |
| `Cache.DnsCache.HashPlace` | external/dnsmasq/src/cache.c:153-173 | the walk of cache_hash finds the place the chain order demands |
| `Cache.DnsCache.CacheHash` | external/dnsmasq/src/cache.c:153-173 | a record is linked into its chain at that place |
| `Cache.DnsCache.StartInsertBatch` | external/dnsmasq/src/cache.c:351-364 | the loop over the batch ends in the state of StartInsertFreesBatch |
| `Cache.DnsCache.FindRoom` | external/dnsmasq/src/cache.c:397-452 | the allocation loop on the linked structures: its outcome and state are those of AllocateExact |
| `Cache.DnsCache.Put` | external/dnsmasq/src/cache.c:366-474 | cache_insert on the linked structures is the insertion of InsertKeepsValid |
| `Cache.DnsCache.LinkTarget` | external/dnsmasq/src/rfc1035.c:940-981 | the CNAME gets the target and its uid |
| `Cache.DnsCache.EndInsertBatch` | external/dnsmasq/src/cache.c:477-497 | the commit loop on the linked structures is the commit of EndInsertCommitsBatch; after an error nothing happens |
| `Cache.DnsCache.AddHostRecord` | external/dnsmasq/src/cache.c:649-715 | a new record outside the LRU list is hashed: the linked structures end in the state of AddHostEffect |
| `Cache.DnsCache.Enlarge` | external/dnsmasq/src/cache.c:102-134 | moving every chain record by record into the new table is the rehash of RehashKeepsRecords |
| `Cache.DnsCache.ClearTable` | external/dnsmasq/src/cache.c:875-893 | the clearing loop on the linked structures is the clearing of ClearKeepsValid |
| `Grammar.Type` | external/gcc-demangle/cp-demangle.c:2012-2264 | a type read from k characters makes at most 2k-1 components and records at most k-1 substitutions; a failure at most 2k and k; the recursion ends |
| `Grammar.CompoundType` | external/gcc-demangle/cp-demangle.c:2050-2155 | before it is recorded a type leaves room for one substitution more; that each letter makes the right component is RoundTrip.TypeRoundTrip |
| `Grammar.ExtendedType` | external/gcc-demangle/cp-demangle.c:2157-2252 | the same budget for the types that start with D |
| `Grammar.NameOf` | external/gcc-demangle/cp-demangle.c:1179-1253 | a name of k characters makes at most 2k-2 components and records at most k-2 substitutions |
| `Grammar.NestedName` | external/gcc-demangle/cp-demangle.c:1260-1280 | a nested name leaves six components and three substitutions of its budget unused |
| `Grammar.Prefix` | external/gcc-demangle/cp-demangle.c:1294-1357 | a prefix of k characters makes at most 2k-2 components and records at most k-1 substitutions, also when a refused substitution is forgotten on the way |
| `Grammar.UnqualifiedName` | external/gcc-demangle/cp-demangle.c:1368-1413 | an unqualified name of k characters makes at most 2k-3 components and k-2 substitutions |
| `Grammar.SourceName` | external/gcc-demangle/cp-demangle.c:1418-1429 | the budget of an identifier with its length, which is converted to int; where that is negative the parse is marked as lost |
| `Grammar.OperatorName` | external/gcc-demangle/cp-demangle.c:1587-1628 | the budget of an operator, a conversion or a vendor operator, and which components it can be |
| `Grammar.CtorDtorName` | external/gcc-demangle/cp-demangle.c:1888-1946 | the budget of a constructor or destructor name |
| `Grammar.LambdaName` | external/gcc-demangle/cp-demangle.c:3003-3037 | the budget of a closure type, recorded |
| `Grammar.UnnamedTypeName` | external/gcc-demangle/cp-demangle.c:3042-3067 | the budget of an unnamed type, recorded |
| `Grammar.LocalNameOf` | external/gcc-demangle/cp-demangle.c:2928-2979 | the budget of a local name, for an entity, a string literal or a default argument |
| `Grammar.Substitution` | external/gcc-demangle/cp-demangle.c:3128-3215 | a substitution of k characters makes at most 2k-2 components and records none; it always advances |
| `Grammar.TemplateParamOf` | external/gcc-demangle/cp-demangle.c:2563-2577 | the budget of a template parameter |
| `Grammar.TemplateArgs` | external/gcc-demangle/cp-demangle.c:2582-2628 | template arguments of k characters make at most 2k-3 components and k-2 substitutions |
| `Grammar.TemplateArg` | external/gcc-demangle/cp-demangle.c:2636-2659 | the budget of one argument |
| `Grammar.MangledName` | external/gcc-demangle/cp-demangle.c:1045-1056 | the budget of a mangled name |
| `Grammar.Encoding` | external/gcc-demangle/cp-demangle.c:1117-1164 | an encoding of k characters makes at most 2k components and records at most k-2 substitutions |
| `Grammar.SpecialName` | external/gcc-demangle/cp-demangle.c:1743-1840 | the budget of the special names |
| `Grammar.JavaResourceOf` | external/gcc-demangle/cp-demangle.c:1644-1724 | the budget of a Java resource name |
| `Grammar.ParmList` | external/gcc-demangle/cp-demangle.c:2337-2376 | parameters of k characters make at most 2k components and record at most k-1 substitutions |
| `Grammar.BareFunctionType` | external/gcc-demangle/cp-demangle.c:2381-2411 | with a return type at most 2k components, without one at most 2k+1 |
| `Grammar.FunctionTypeOf` | external/gcc-demangle/cp-demangle.c:2316-2332 | the budget of a function type |
| `Grammar.ArrayTypeOf` | external/gcc-demangle/cp-demangle.c:2426-2464 | the budget of an array type |
| `Grammar.VectorTypeOf` | external/gcc-demangle/cp-demangle.c:2470-2492 | the budget of a vector type, whose number component is made before it is read |
| `Grammar.PointerToMember` | external/gcc-demangle/cp-demangle.c:2497-2538 | the budget of a pointer to member, which may record its qualified member apart |
| `Grammar.Expression` | external/gcc-demangle/cp-demangle.c:2708-2858 | an expression of k characters makes at most 2k-3 components and k-2 substitutions |
| `Grammar.ExprList` | external/gcc-demangle/cp-demangle.c:2664-2694 | the budget of an expression list |
| `Grammar.ExprPrimary` | external/gcc-demangle/cp-demangle.c:2866-2921 | the budget of a literal or an external name |
| `Grammar.CvQualifiers` | external/gcc-demangle/cp-demangle.c:2269-2311 | one component for each qualifier character, and no substitution |
| `Parser.Demangler.constructor` | external/gcc-demangle/cp-demangle.c:4750-4774 | 2*len components, len substitutions, nothing used |
| `Parser.Demangler.MakeEmpty` | external/gcc-demangle/cp-demangle.c:764-773 | an entry is taken exactly if one is left |
| `Parser.Demangler.MakePair` | external/gcc-demangle/cp-demangle.c:778-873 | a component with two parts is made if both are there; with an entry left it never fails otherwise |
| `Parser.Demangler.AddSubstitution` | external/gcc-demangle/cp-demangle.c:3072-3081 | with fewer substitutions than characters read the table takes the component |
| `Parser.Demangler.Type` | external/gcc-demangle/cp-demangle.c:2012-2264 | the bounded parser, run on types, gives the result and state of the unbounded grammar, so that no capacity check refuses anything |
| `Parser.Demangler.NameOf` | external/gcc-demangle/cp-demangle.c:1179-1253 | the bounded parser, run on names, gives the result and state of the unbounded grammar, so that no capacity check refuses anything |
| `Parser.Demangler.NestedName` | external/gcc-demangle/cp-demangle.c:1260-1280 | the bounded parser, run on nested names, gives the result and state of the unbounded grammar, so that no capacity check refuses anything |
| `Parser.Demangler.Prefix` | external/gcc-demangle/cp-demangle.c:1294-1357 | the bounded parser, run on prefixes, loop and forgotten substitutions included, gives the result and state of the unbounded grammar, so that no capacity check refuses anything |
| `Parser.Demangler.UnqualifiedName` | external/gcc-demangle/cp-demangle.c:1368-1413 | the bounded parser, run on unqualified names, gives the result and state of the unbounded grammar, so that no capacity check refuses anything |
| `Parser.Demangler.SourceName` | external/gcc-demangle/cp-demangle.c:1418-1429 | the bounded parser, run on source names, gives the result and state of the unbounded grammar, so that no capacity check refuses anything |
| `Parser.Demangler.Identifier` | external/gcc-demangle/cp-demangle.c:1481-1519 | the bounded parser, run on identifiers, gives the result and state of the unbounded grammar, so that no capacity check refuses anything |
| `Parser.Demangler.ReadNumber` | external/gcc-demangle/cp-demangle.c:1434-1462 | the bounded parser, run on numbers, gives the result and state of the unbounded grammar, so that no capacity check refuses anything |
| `Parser.Demangler.SearchOperator` | external/gcc-demangle/cp-demangle.c:1603-1626 | the bounded parser, run on the operator search, gives the result and state of the unbounded grammar, so that no capacity check refuses anything |
| `Parser.Demangler.OperatorName` | external/gcc-demangle/cp-demangle.c:1587-1628 | the bounded parser, run on operators, gives the result and state of the unbounded grammar, so that no capacity check refuses anything |
| `Parser.Demangler.SpecialName` | external/gcc-demangle/cp-demangle.c:1743-1840 | the bounded parser, run on special names, gives the result and state of the unbounded grammar, so that no capacity check refuses anything |
| `Parser.Demangler.ReadCallOffset` | external/gcc-demangle/cp-demangle.c:1856-1877 | the bounded parser, run on call offsets, gives the result and state of the unbounded grammar, so that no capacity check refuses anything |
| `Parser.Demangler.CtorDtorName` | external/gcc-demangle/cp-demangle.c:1888-1946 | the bounded parser, run on constructors and destructors, gives the result and state of the unbounded grammar, so that no capacity check refuses anything |
| `Parser.Demangler.CvQualifiers` | external/gcc-demangle/cp-demangle.c:2269-2311 | the bounded parser, run on qualifiers; no entry is ever missing, gives the result and state of the unbounded grammar, so that no capacity check refuses anything |
| `Parser.Demangler.FunctionTypeOf` | external/gcc-demangle/cp-demangle.c:2316-2332 | the bounded parser, run on function types, gives the result and state of the unbounded grammar, so that no capacity check refuses anything |
| `Parser.Demangler.ParmList` | external/gcc-demangle/cp-demangle.c:2337-2376 | the bounded parser, run on parameter lists, gives the result and state of the unbounded grammar, so that no capacity check refuses anything |
| `Parser.Demangler.BareFunctionType` | external/gcc-demangle/cp-demangle.c:2381-2411 | the bounded parser, run on bare function types, gives the result and state of the unbounded grammar, so that no capacity check refuses anything |
| `Parser.Demangler.ArrayTypeOf` | external/gcc-demangle/cp-demangle.c:2426-2464 | the bounded parser, run on array types, gives the result and state of the unbounded grammar, so that no capacity check refuses anything |
| `Parser.Demangler.VectorTypeOf` | external/gcc-demangle/cp-demangle.c:2470-2492 | the bounded parser, run on vector types, gives the result and state of the unbounded grammar, so that no capacity check refuses anything |
| `Parser.Demangler.PointerToMember` | external/gcc-demangle/cp-demangle.c:2497-2538 | the bounded parser, run on pointers to members, gives the result and state of the unbounded grammar, so that no capacity check refuses anything |
| `Parser.Demangler.ReadCompactNumber` | external/gcc-demangle/cp-demangle.c:2543-2556 | the bounded parser, run on compact numbers, gives the result and state of the unbounded grammar, so that no capacity check refuses anything |
| `Parser.Demangler.TemplateParamOf` | external/gcc-demangle/cp-demangle.c:2563-2577 | the bounded parser, run on template parameters, gives the result and state of the unbounded grammar, so that no capacity check refuses anything |
| `Parser.Demangler.TemplateArgs` | external/gcc-demangle/cp-demangle.c:2582-2628 | the bounded parser, run on template arguments, gives the result and state of the unbounded grammar, so that no capacity check refuses anything |
| `Parser.Demangler.TemplateArg` | external/gcc-demangle/cp-demangle.c:2636-2659 | the bounded parser, run on one template argument, gives the result and state of the unbounded grammar, so that no capacity check refuses anything |
| `Parser.Demangler.ExprList` | external/gcc-demangle/cp-demangle.c:2664-2694 | the bounded parser, run on expression lists, gives the result and state of the unbounded grammar, so that no capacity check refuses anything |
| `Parser.Demangler.Expression` | external/gcc-demangle/cp-demangle.c:2708-2858 | the bounded parser, run on expressions, gives the result and state of the unbounded grammar, so that no capacity check refuses anything |
| `Parser.Demangler.ExprPrimary` | external/gcc-demangle/cp-demangle.c:2866-2921 | the bounded parser, run on primary expressions, gives the result and state of the unbounded grammar, so that no capacity check refuses anything |
| `Parser.Demangler.LocalNameOf` | external/gcc-demangle/cp-demangle.c:2928-2979 | the bounded parser, run on local names, gives the result and state of the unbounded grammar, so that no capacity check refuses anything |
| `Parser.Demangler.ReadDiscriminator` | external/gcc-demangle/cp-demangle.c:2987-2998 | the bounded parser, run on discriminators, gives the result and state of the unbounded grammar, so that no capacity check refuses anything |
| `Parser.Demangler.LambdaName` | external/gcc-demangle/cp-demangle.c:3003-3037 | the bounded parser, run on closure types, gives the result and state of the unbounded grammar, so that no capacity check refuses anything |
| `Parser.Demangler.UnnamedTypeName` | external/gcc-demangle/cp-demangle.c:3042-3067 | the bounded parser, run on unnamed types, gives the result and state of the unbounded grammar, so that no capacity check refuses anything |
| `Parser.Demangler.Substitution` | external/gcc-demangle/cp-demangle.c:3128-3215 | the bounded parser, run on substitutions, gives the result and state of the unbounded grammar, so that no capacity check refuses anything |
| `Parser.Demangler.Encoding` | external/gcc-demangle/cp-demangle.c:1117-1164 | the bounded parser, run on encodings, gives the result and state of the unbounded grammar, so that no capacity check refuses anything |
| `Parser.Demangler.MangledName` | external/gcc-demangle/cp-demangle.c:1045-1056 | the bounded parser, run on mangled names, gives the result and state of the unbounded grammar, so that no capacity check refuses anything |
| `Parser.Demangler.JavaResourceOf` | external/gcc-demangle/cp-demangle.c:1644-1724 | the bounded parser, run on Java resources, gives the result and state of the unbounded grammar, so that no capacity check refuses anything |
| `Demangling.Reference` | external/gcc-demangle/cp-demangle.c:4782-4851 | the whole reading uses at most 2*len components and len substitutions |
| `Demangling.ReadName` | external/gcc-demangle/cp-demangle.c:4782-4851 | for every string and every option the bounded demangler accepts exactly what the unbounded grammar accepts, with the same component, using at most 2*len entries and len substitutions; it is lost only at a length negative as an int or a vendor operator for two operands, of which the place is returned |
| `Operators.FindOperator` | external/gcc-demangle/cp-demangle.c:1603-1626 | the binary search ends and only answers an entry with the code asked for |
| `Operators.OperatorFound` | external/gcc-demangle/cp-demangle.c:1526-1584 | the search finds exactly the first 50 entries; the two spellings of alignof, out of order at the end, are never found |
| `Lengths.GoesBackExactly` | external/gcc-demangle/cp-demangle.c:1418-1491 | the position after a name's length stays inside the characters not yet read exactly if the length is not negative as an int; exactly then the parse is not lost, and it goes where the source goes |
| `Lengths.NegativeIsLost` | external/gcc-demangle/cp-demangle.c:1418-1491 | every text that starts a global name with a length negative as an int is lost at that length |
| `Lengths.WrappedIsRead` | external/gcc-demangle/cp-demangle.c:1418-1491 | every length that is an identifier's as an int, however large, reads the identifier to the end of the text |
| `Lengths.TooLongForAnInt` | external/gcc-demangle/cp-demangle.c:1418-1491 | one text of either kind |
| `Lengths.VendorIsLost` | external/gcc-demangle/cp-demangle.c:2764-2820 | an expression of operators is lost at its first character exactly if a vendor operator for two operands with a readable name starts there |
| `Lengths.VendorText` | external/gcc-demangle/cp-demangle.c:2812-2820 | a whole text that is lost at such an operator |
| `Numerals.DecimalRoundTrip` | external/gcc-demangle/cp-demangle.c:1434-1462 | a decimal numeral not followed by a digit is read as its number |
| `Numerals.SeqIdRoundTrip` | external/gcc-demangle/cp-demangle.c:3138-3167 | the base 36 number of a substitution is read as one more than it says, without overflow below 2^32 |
| `RoundTrip.TypeRoundTrip` | external/gcc-demangle/cp-demangle.c:2012-2264 | a type spelled by an independent mangler with the ABI's compression, after any table of earlier components, is read back as its component (P a pointer, R a reference, O an rvalue reference, C complex, G imaginary, a single void dropped; all named without the grammar) to the last character without being lost, and the parser's table ends equal to the mangler's |
| `RoundTrip.PathRead` | external/gcc-demangle/cp-demangle.c:1294-1357 | a qualified name, prefixes compressed, is read back with every proper prefix recorded |
| `RoundTrip.DemanglesTypes` | external/gcc-demangle/cp-demangle.c:4782-4851 | the demangler reads every such spelled type as the component that the mangler says it stands for |
| `SymbolTrip.EntityRead` | external/gcc-demangle/cp-demangle.c:1179-1413 | a name, plain or in a scope, ending in an identifier, an operator, a constructor or a destructor, with qualifiers and with template arguments, is read as its component, with each class and template on the way recorded; a constructor is that of the class read last |
| `SymbolTrip.SymbolRoundTrip` | external/gcc-demangle/cp-demangle.c:1117-1164 | every symbol of the mangler (functions with parameters and, if they are templates, a result; objects; virtual tables, type information, guards, temporaries, aliases; thunks with offsets of either sign, nested to any depth) is read as what it stands for, to the end of the text |
| `SymbolTrip.CovariantRead` | external/gcc-demangle/cp-demangle.c:1743-1877 | two call offsets, each of either kind, are read up to the symbol that they adjust |
| `SymbolTrip.DemanglesSymbols` | external/gcc-demangle/cp-demangle.c:4782-4851 | with parameters wanted the demangler answers every such `_Z` text with the component of its symbol |
| `SymbolTrip.DemanglesNames` | external/gcc-demangle/cp-demangle.c:1117-1150 | without parameters it answers the name alone, without the qualifiers of the object it is called for, whatever follows |
| `Packets.CompareIsDecode` | external/dnsmasq/src/rfc1035.c:30-172 | whenever a name decodes to a text, comparing it with a name says equal exactly if the name is the text up to letter case, or that text with a dot when it is not the root, and otherwise different; both go on at the same place |
| `Packets.ReadersAgree` | external/dnsmasq/src/rfc1035.c:281-334 | after decoding or comparing, the reader goes on exactly where skip_name does |
| `Packets.SkipFollows` | external/dnsmasq/src/rfc1035.c:281-334 | skip_name succeeds on a name that can be followed exactly if its trailing bytes are there, and ends where the reader goes on |
| `Packets.Follow` | external/dnsmasq/src/rfc1035.c:38-92 | following a name ends, by hops and remaining bytes, inside the packet |
| `NameReader.ExtractName` | external/dnsmasq/src/rfc1035.c:30-172 | the decoding loop: the text of the labels and the resume point of the reference, exactly when it has one; all writes stay in the buffer of MAXDNAME |
| `NameReader.MatchName` | external/dnsmasq/src/rfc1035.c:30-172 | the comparing loop: equal, different or malformed exactly as the reference says |
| `NameReader.Skip` | external/dnsmasq/src/rfc1035.c:281-334 | the loop of skip_name is the function the lemmas are about |
| `QuestionCrc.CrcSeesQuestions` | external/dnsmasq/src/rfc1035.c:374-413 | question sections with the same questions up to letter case, whatever their compression, have the same checksum |
| `QuestionRewriting.CrcIgnoresWriting` | external/dnsmasq/src/rfc1035.c:374-413 | two question sections of any length whose names follow to the same labels up to letter case, wherever the labels stand, with the same types and classes, have the same checksum |
| `QuestionRewriting.CrcIgnoresCase` | external/dnsmasq/src/rfc1035.c:374-413 | in particular a packet whose names have the same lengths and pointers but other letters, whatever else is in it |
| `QuestionRewriting.CrcIgnoresCompression` | external/dnsmasq/src/rfc1035.c:374-413 | in particular a section whose first name ends in a pointer where the other has the labels written out |
| `QuestionRewriting.TailByPointer` | external/dnsmasq/src/rfc1035.c:38-92 | replacing the end of a name by a pointer to the same labels leaves the labels of the name, which then ends after the pointer |
| `Checksums.BurstSeen` | external/dnsmasq/src/rfc1035.c:374-413 | texts that differ only within four adjacent bytes have different checksums |
| `Checksums.KindSeen` | external/dnsmasq/src/rfc1035.c:374-413 | a question section that asks for another type or class of one of the names has another checksum |
| `Checksums.NameSeen` | external/dnsmasq/src/rfc1035.c:374-413 | so has one in which a name differs, apart from letter case, only within four adjacent letters |
| `QuestionCrc.ChecksumQuestions` | external/dnsmasq/src/rfc1035.c:374-413 | the loops over questions, characters and bits compute the checksum of the decoded lower-case names, types and classes up to the first malformed question |
| `QuestionCrc.SkipsQuestions` | external/dnsmasq/src/rfc1035.c:336-349 | questions that decode are skipped to their end |
| `QuestionCrc.SkipAllQuestions` | external/dnsmasq/src/rfc1035.c:336-349 | the loop of skip_questions |
| `Records.AnswerSkips` | external/dnsmasq/src/rfc1035.c:1192-1284 | after any requests the answer lies within the limit, and skip_section with the number of records written ends exactly at its end |
| `Records.FlagSaysTruncated` | external/dnsmasq/src/rfc1035.c:1192-1284 | with a shared flag, it is set exactly if some record was refused, and the records written are the first ones requested |
| `Records.SkipsRecord` | external/dnsmasq/src/rfc1035.c:351-366 | skip_section skips a written record as one |
| `RecordReader.DomainReads` | external/dnsmasq/src/rfc1035.c:1242-1248 | a domain name in record data is read back as its labels exactly if none of them is empty |
| `RecordReader.RecordReads` | external/dnsmasq/src/rfc1035.c:1192-1284 | a reader written from RFC 1035, section 4.1.3, finds in a written record the name at the record's offset, its type, class and TTL in their widths, and item by item its data |
| `RecordReader.AnswerReads` | external/dnsmasq/src/rfc1035.c:1192-1284 | after any requests the records that it reads where the answer started are exactly the accepted ones, in order, and what was before is as it was |
| `AnswerWriter.Writer.Add` | external/dnsmasq/src/rfc1035.c:1192-1284 | the record is written in place, its length filled in afterwards, the limit looked at last: buffer, end and flag are those of the record function |
| `AnswerWriter.SkipRecords` | external/dnsmasq/src/rfc1035.c:351-366 | the loop of skip_section |
| `Arpa.V4RoundTrip` | external/dnsmasq/src/rfc1035.c:207-233 | an IPv4 prefix of 8, 16 or 24 bits, printed as an in-addr.arpa name, is read as the prefix with zero host bits |
| `Arpa.V6RoundTrip` | external/dnsmasq/src/rfc1035.c:261-275 | an IPv6 prefix, printed half byte by half byte under ip6.arpa, is read as the prefix with zero host bits |
| `Arpa.PrefixRoundTrip` | external/dnsmasq/src/option.c:1495-1502 | for every size the printer is given the name it prints is read as the masked prefix |
| `Arpa.PrefixNamesAll` | external/dnsmasq/src/option.c:1480-1502 | the names of all addresses of the prefix are under the printed one exactly if the size is a multiple of 4 |
| `ArpaNames.PrintPrefix4` | external/dnsmasq/src/option.c:1430-1449 | the shifting printer prints the octets of the prefix backwards |
| `ArpaNames.PrintPrefix6` | external/dnsmasq/src/option.c:1495-1502 | the loop prints, backwards, the half bytes the prefix reaches into, for every size that is accepted |
| `ArpaNames.ArpaToAddress` | external/dnsmasq/src/rfc1035.c:176-279 | the loops over labels, octets and half bytes read what the name function says |
| `ArpaNames.PushInPlace` | external/dnsmasq/src/rfc1035.c:267-269 | the in-place shift by half a byte moves every half byte one place on |
| `DomainSearchOption.OptionDecodesExactly` | external/dnsmasq/src/option.c:925-982 | the option decodes to the configured names in their order exactly if no accepted name starts with a dot or has two dots in a row |
| `DomainSearchOption.EmptyLabelSplits` | external/dnsmasq/src/option.c:925-982 | `a..b` is accepted, has an empty label, and comes back as the two names `a` and `b` |
| `Decoders.DecodersAgree` | external/dnsmasq/src/rfc1035.c:38-92 | a name of the option is read by the reader of packets, with the same labels and end, exactly if it has no more pointers than that one follows |
| `DomainSearchProofs.DecodesExactly` | external/dnsmasq/src/option.c:955-975 | the compressed buffer decodes to the names it was built from exactly if none of them has an empty label |
| `DomainSearchProofs.AddNameDecodes` | external/dnsmasq/src/option.c:955-975 | one more name decodes to its labels and leaves the buffer before it untouched |
| `DomainSearchProofs.MatchIsBefore` | external/dnsmasq/src/option.c:966-973 | text found by the walk lies wholly inside the names before, even if the walk is out of step after a pointer |
| `DomainSearchOption.BuildOption` | external/dnsmasq/src/option.c:925-982 | the loop over the arguments builds the buffer of all accepted names, reports a refused one, and sets the encoding byte |
| `DomainSearchOption.CompressTail` | external/dnsmasq/src/option.c:966-975 | the first tail found earlier is overwritten in place by a pointer |
| `DomainSearchOption.WriteName` | external/dnsmasq/src/option.c:952-964 | the name is written label by label with its lengths filled in afterwards |
| `DomainSearchOption.FindText` | external/dnsmasq/src/option.c:967-969 | the walk over earlier names finds the first place with the same text |
| `DomainSearchOption.Canonicalise` | external/dnsmasq/src/util.c:99-136 | the loop of check_name accepts exactly the names the function says and drops one trailing dot |
| `ForwardRuns.RunKeepsInv` | external/dnsmasq/src/forward.c:1051-1246 | over all runs of queries, replies, servers and probes: each socket's count is its number of references and it is open exactly while there are any, pairs in flight are distinct, no query refers to a server that is gone, and the table holds at most ftabsize+1 records |
| `ForwardRuns.StepKeepsInv` | external/dnsmasq/src/forward.c:242-644 | every step keeps that invariant |
| `Forwarding.GetNewSpares` | external/dnsmasq/src/forward.c:1128-1189 | without waiting the record got is free and no query younger than TIMEOUT is touched |
| `Forwarding.GetNewWaits` | external/dnsmasq/src/forward.c:1128-1189 | probing for room does not touch a query younger than TIMEOUT either |
| `Forwarding.GivesWay` | external/dnsmasq/src/forward.c:1128-1189 | a query recycled before four times TIMEOUT is an oldest one, at least TIMEOUT old, and either twice as old or the table is full or memory is short |
| `Forwarding.OneAnswer` | external/dnsmasq/src/forward.c:1192-1202 | a reply with a known checksum can answer one query only |
| `Forwarding.SendFromKeeps` | external/dnsmasq/src/forward.c:333-438 | the loop over servers keeps the invariant, and a query that was sent is in flight |
| `ForwardRuns.QuerySparesYoung` | external/dnsmasq/src/forward.c:242-455 | a query from a client leaves every other query younger than TIMEOUT unchanged |
| `ForwardReplies.ReplyEnds` | external/dnsmasq/src/forward.c:540-644 | a good reply, the last bad one of those waited for, or a bad one after which no other server is tried ends the query: it is not in flight any more, each socket has lost its references to it and is open while others are left, all other queries are as before, and the reply goes to the client that asked, with its id |
| `ForwardReplies.TakenOnce` | external/dnsmasq/src/forward.c:540-644 | a reply with a known checksum that was passed on is not taken a second time |
| `ForwardReplies.BadReplyCounts` | external/dnsmasq/src/forward.c:623-628 | any other bad reply to a query sent to several servers only counts down |
| `ForwardReplies.AllRefuse` | external/dnsmasq/src/forward.c:623-643 | a query that waits for n replies outlives n - 1 bad ones and not the last |
| `ForwardReplies.RetryAsksAll` | external/dnsmasq/src/forward.c:577-600 | after a bad reply from the one server it was sent to, a query is sent to all of them and waits for as many replies as servers were reached; it is over if none was |
| `ForwardReplies.SendCounts` | external/dnsmasq/src/forward.c:333-438 | a query for all servers is counted once for each server reached, up to one for which there is no socket, and was sent last to the last of them |
| `ForwardReplies.SendFirst` | external/dnsmasq/src/forward.c:333-438 | any other query is sent to the first server that it reaches and to no other |
| `ForwardReplies.LastServerAfter` | external/dnsmasq/src/forward.c:602-621 | after a reply the server asked first is none if the reply was bad, else the one with the address it came from, else the one the query was sent to last |
| `ForwardReplies.GoneDropsExactly` | external/dnsmasq/src/forward.c:1221-1234 | when a server goes, the queries sent to it last are over and all others stay as they are; it is not asked first any more |
| `ForwardReplies.OnlyOldEnd` | external/dnsmasq/src/forward.c:1128-1189 | looking for a record, waiting or not, ends no query younger than four times TIMEOUT but the one whose record is taken |
| `ForwardClients.StepBalances` | external/dnsmasq/src/forward.c:242-644 | in one step the queries in flight of a client with an id and a question grow by at most what it asks and shrink by what is passed on to it |
| `ForwardClients.RunBalances` | external/dnsmasq/src/forward.c:242-644 | over every run, the replies passed on to a client and its queries in flight are no more than it asked |
| `ForwardClients.NoSpareAnswers` | external/dnsmasq/src/forward.c:242-644 | from the empty table nobody is answered more often than it asked with that id and question |
| `ForwardClients.OneInFlight` | external/dnsmasq/src/forward.c:242-644 | over every run, a client has at most one query with the same id and question in flight |
| `ForwardClients.ForwardedIsKnown` | external/dnsmasq/src/forward.c:242-455 | after a query the table knows it, with its source, id and checksum, exactly if it was forwarded |
| `ForwardClients.ForwardedIsYoung` | external/dnsmasq/src/forward.c:242-345 | a query asked for the first time and forwarded is in flight with its client, the time of now and an id that was drawn for it, so that for TIMEOUT seconds no other query takes its record |
| `ForwardClients.RunWaits` | external/dnsmasq/src/forward.c:242-644 | over every run, a query in flight was sent to one server only, or waits for at least one more bad reply |
| `Frecs.FreeSockets` | external/dnsmasq/src/forward.c:1107-1122 | freeing a record drops its references and closes a socket exactly with the last one |
| `Frecs.AttachSockets` | external/dnsmasq/src/forward.c:1071-1105 | giving a record a new or shared socket keeps counts, families and open sockets right |
| `ForwardTable.Table.FreeFrec` | external/dnsmasq/src/forward.c:1107-1122 | free_frec in place |
| `ForwardTable.Table.AllocateRfd` | external/dnsmasq/src/forward.c:1071-1105 | the two searches for a free or a sharable socket, in place |
| `ForwardTable.Table.GetNewFrec` | external/dnsmasq/src/forward.c:1128-1189 | get_new_frec with its scan, in place |
| `ForwardTable.Table.LookupFrec` | external/dnsmasq/src/forward.c:1192-1202 | the loop finds the first record that answers |
| `ForwardTable.Table.LookupFrecBySender` | external/dnsmasq/src/forward.c:1204-1218 | the loop finds the first record asked by the sender |
| `ForwardTable.Table.GetId` | external/dnsmasq/src/forward.c:1237-1246 | the first drawn id that no query with the checksum uses |
| `ForwardTable.Table.SendLoop` | external/dnsmasq/src/forward.c:333-438 | the loop over servers, in place |
| `ForwardTable.Table.ForwardQuery` | external/dnsmasq/src/forward.c:242-455 | what a client's query does to the table, and whether it was forwarded, in place |
| `ForwardTable.Table.ReplyQuery` | external/dnsmasq/src/forward.c:540-644 | what a reply does to the table, and the client it is passed on to, in place: state and client are those of ReplyEnds, BadReplyCounts and RetryAsksAll |
| `ForwardTable.Table.ServerGone` | external/dnsmasq/src/forward.c:1221-1234 | every query to the server is dropped and it is no longer the last server |
| `Options6.BytesWalk` | external/dnsmasq/src/rfc3315.c:1494-1508 | the bytes of a tree of options walk to exactly that tree |
| `Options6.WalkUnique` | external/dnsmasq/src/rfc3315.c:1494-1508 | and to no other tree of the same shape |
| `Options6.FindMeets` | external/dnsmasq/src/rfc3315.c:1467-1492 | opt6_find on such bytes meets the first option of the type that is long enough |
| `Options6.FindOption` | external/dnsmasq/src/rfc3315.c:1467-1492 | the loop of opt6_find |
| `OutPacket.Packet.Put` | external/dnsmasq/src/outpacket.c:41-77 | the bytes are appended at the counter |
| `OutPacket.Packet.SaveCounter` | external/dnsmasq/src/outpacket.c:32-39 | the counter is read and, if asked, set |
| `OutPacket.Packet.NewOpt6` | external/dnsmasq/src/outpacket.c:55-67 | a type and a zero length are appended and the place is returned |
| `OutPacket.Packet.EndOpt6` | external/dnsmasq/src/outpacket.c:24-30 | the length of what follows, its low 16 bits, is filled in |
| `OutPacket.Packet.EmitNode` | external/dnsmasq/src/outpacket.c:24-77 | options opened, filled and closed in nested order leave the bytes of the tree behind what was there |
| `OutPacket.Packet.EmitAndDrop` | external/dnsmasq/src/outpacket.c:32-39 | what is emitted after a mark and set back to it leaves nothing |
| `OutPacket.Packet.PatchAt` | external/dnsmasq/src/outpacket.c:32-39 | going back, overwriting and returning changes just those bytes |
| `IaReply.PutGrant` | external/dnsmasq/src/rfc3315.c:479-793 | the IA of a SOLICIT or REQUEST is appended with T1 and T2 filled in afterwards; what it tells the client is IaOptions.GrantReads |
| `IaReply.PutRenewal` | external/dnsmasq/src/rfc3315.c:802-946 | the IA of a RENEW is appended, set back at the first missing lease; what it tells the client is IaOptions.RenewalReads |
| `LeaseTimes.ChooseTime` | external/dnsmasq/src/rfc3315.c:620-628 | the tests that choose a lease time give the lesser of the time configured for the host, or else the range, and the time asked for, if any, and at least two minutes |
| `LeaseTimes.LeaseTime` | external/dnsmasq/src/option.c:2165-2174 | with the clamps of the settings every lease time is at least two minutes and at most what is configured |
| `LeaseTimes.TimesAsked` | external/dnsmasq/src/rfc3315.c:620-628 | asking for two minutes or more up to what is configured gives what is asked for; asking for more gives what is configured, asking for less two minutes, asking for nothing what is configured: by the host, else by the range, else an hour |
| `LeaseTimes.TamedOften` | external/dnsmasq/src/rfc3315.c:934-937 | the fuzz is halved exactly as often as it takes to be at most a sixteenth of the least lease time |
| `LeaseTimes.TimesOrdered` | external/dnsmasq/src/rfc3315.c:756-765 | for a least lease time alone, T1 <= T2 exactly if it is 0, 1 or at least 8, with or without fuzz, and neither is after it |
| `IaTimes.GrantedTimes` | external/dnsmasq/src/rfc3315.c:590-765 | whatever is configured and asked for, in the option of a SOLICIT or REQUEST T1 <= T2 <= every lifetime granted, read from the option itself; without an address both are zero |
| `IaTimes.RenewedTimes` | external/dnsmasq/src/rfc3315.c:838-944 | with any fuzz the same holds in the option of a RENEW for every address that is not withdrawn |
| `IaOptions.GrantReads` | external/dnsmasq/src/rfc3315.c:590-781 | walking over the bytes of the option of a SOLICIT or REQUEST a client finds, in order, exactly the granted addresses with a lease, each with its lifetime as the valid one and as the preferred one 0 exactly if deprecated, with the refusals and their codes in between, and last a status, 0 exactly if an address was assigned and 2 otherwise; T1 and T2 are made from the shortest lifetime |
| `IaOptions.RenewalReads` | external/dnsmasq/src/rfc3315.c:838-946 | in the option of a RENEW it finds each of its addresses in order with its new lifetime, 0 for one that is withdrawn, and T1 and T2 made from the shortest lifetime that is prolonged, both sooner by the same fuzz, at most a sixteenth; if a lease is missing it finds the single status 3 |
| `Relay.RelayReply` | external/dnsmasq/src/rfc3315.c:63-168 | the reply to a well formed nested relay message reads as the same layers, hop counts, addresses and other options in order, around the server's answers, each for the link of the relay right around its request |
| `Relay.MaybeRelay` | external/dnsmasq/src/rfc3315.c:63-168 | the recursive handler appends exactly the encoding of that reply, or fails exactly when some innermost message gets no answer |
| `Relay.ParseEncode` | external/dnsmasq/src/rfc3315.c:63-168 | nested messages are read back from their bytes |
| `Relay.ReplySameLayers` | external/dnsmasq/src/rfc3315.c:117-167 | replying keeps depth, hop counts, addresses and other options |
| `Relay.RepliesToAll` | external/dnsmasq/src/rfc3315.c:63-168 | there is a reply exactly if every innermost message is answered for the link of its own relay, and the innermost messages of the reply are these answers in order |
| `Ring.OnceAround` | external/dnsmasq/src/dhcp.c:616-699 | from any start in a range smaller than the word the search tries every address of the range exactly once before it is back |
| `Ring.SearchComplete` | external/dnsmasq/src/dhcp.c:616-699 | the search finds a free address of the range exactly if there is one |
| `Allocation.AllocationIsRight` | external/dnsmasq/src/dhcp.c:577-703 | an address found is in a range for the client and not the server's, leased, reserved or broken; an untagged range is used only when all tagged ones are exhausted; nothing is found exactly when all ranges are |
| `Allocation.RefusedUnreserved` | external/dnsmasq/src/dhcp.c:638-692 | an unreserved address is refused only if it answered a ping, or was lately offered to another client in consecutive mode |
| `Allocation.AllocatedIsAvailable` | external/dnsmasq/src/dhcp.c:499-526 | an address that is allocated passes address_available |
| `Allocation.OwnAddressPasses` | external/dnsmasq/src/dhcp.c:508-510 | of two subnets, the server's own address in the second passes |
| `Offers.KeptExactly` | external/dnsmasq/src/dhcp.c:638-687 | for the client it was offered to an address stays free without another ping; for another client, while addresses are given out in order, it is free exactly when the record is older than PING_CACHE_TIME |
| `Offers.OneClientEach` | external/dnsmasq/src/dhcp.c:638-692 | while addresses are given out in order, in the PING_CACHE_TIME seconds after an offer that made a record no client with another hash is offered the address, whatever is offered in between |
| `Offers.NotRenewed` | external/dnsmasq/src/dhcp.c:646-661 | an offer that only finds the record does not make it younger: offered at 0 and again at 29, an address goes to another client at 31 |
| `Allocator.Server.Allocate` | external/dnsmasq/src/dhcp.c:577-703 | the loops over passes, ranges and addresses with the records of pings and the epochs, in place |
| `Allocator.Server.SearchRange` | external/dnsmasq/src/dhcp.c:616-699 | once around a range, epochs perturbed by busy addresses and the good address recorded |
| `Allocator.Server.TryAddress` | external/dnsmasq/src/dhcp.c:619-692 | one address: blocked, busy or free, and the record of pings after it |
| `Allocator.Server.Hash` | external/dnsmasq/src/dhcp.c:590-593 | the SDBM hash of the client |
| `Allocator.AddressAvailable` | external/dnsmasq/src/dhcp.c:499-526 | the loops of address_available |
| `Allocation6.Allocation6IsRight` | external/dnsmasq/src/dhcp6.c:210-272 | the same guarantees for the IPv6 search |
| `Allocation6.Allocate6` | external/dnsmasq/src/dhcp6.c:210-272 | the loops of address6_allocate |
| `Leases.RunsKeepInv` | external/dnsmasq/src/lease.c:463-889 | over all runs leases_left plus live leases is dhcp_max, and no two IPv4 leases share a name (the full name with OPT_DHCP_FQDN, the host name without) |
| `Leases.SetHostnameKeeps` | external/dnsmasq/src/lease.c:798-889 | taking a name keeps names unique |
| `Leases.AllocateKeeps` | external/dnsmasq/src/lease.c:641-660 | a lease is refused exactly when dhcp_max are there |
| `Leases.ConfiguredNamesStay` | external/dnsmasq/src/lease.c:865-870 | a client's name never takes a configured one away |
| `Leases.RunAnnouncesOne` | external/dnsmasq/src/lease.c:917-1004 | every run of the script decreases the pending events by exactly one and returns zero exactly when none is left; new and changed leases are announced only when no deletion or lost name waits |
| `Leases.LossForgotten` | external/dnsmasq/src/lease.c:776-796 | kill_name makes one more event pending exactly if the lease has a name and no earlier loss of it waits; the name just lost is the one that waits |
| `LeaseEnds.PruneEnds` | external/dnsmasq/src/lease.c:463-488 | exactly the leases whose limit is past, and the one to be dropped, go to the front of the list of those gone, the last first; the others stay as they are, in their order |
| `LeaseEnds.LastsAsSet` | external/dnsmasq/src/lease.c:463-710 | a lease that is given some seconds stays through every pruning up to then and through none later; with the longest time it stays through all |
| `LeaseEnds.NameTaken` | external/dnsmasq/src/lease.c:798-889 | a lease that asks for a name has it afterwards, with its full name, unless a configured lease that it does not outrank holds it; then nothing changes |
| `LeaseEnds.StepBooks` | external/dnsmasq/src/lease.c:463-1004 | in every step leases become new only when they are taken; the script is told of a new one as added, once, and of any other as changed |
| `LeaseEnds.BooksAreRight` | external/dnsmasq/src/lease.c:463-1004 | over every run from the empty table, once nothing is pending, the leases that there are number those told as added less those of them told as deleted |
| `LeaseEnds.DeletionsOfAdded` | external/dnsmasq/src/lease.c:463-1004 | once nothing is pending, every deletion told was of a lease told as added exactly if no lease ended while it was new |
| `LeaseEnds.DeletedNotAdded` | external/dnsmasq/src/lease.c:917-950 | a lease that is taken and ends before the script runs is told as deleted and was never told as added |
| `LeaseLosses.StepBalances` | external/dnsmasq/src/lease.c:463-1004 | in every step, name by name, the losses that waited and those that come are those that wait, the one announced and those pushed out |
| `LeaseLosses.RunBalances` | external/dnsmasq/src/lease.c:463-1004 | over every run each loss is announced, waits, or was pushed out by a later one, and nothing else is announced as lost |
| `LeaseLosses.LossesKept` | external/dnsmasq/src/lease.c:776-1004 | over a run all losses are announced or wait exactly if kill_name is never called for a lease for which a loss waits |
| `LeaseLosses.CallsAnnounce` | external/dnsmasq/src/lease.c:917-1004 | as many calls of do_script_run as there are pending events announce every loss that waits |
| `LeaseLosses.ThreeNames` | external/dnsmasq/src/lease.c:776-796 | from the empty table a lease named three times loses two names, of which the first is neither announced nor waiting |
| `LeaseTable.Table.AllocateLease` | external/dnsmasq/src/lease.c:641-660 | lease_allocate in place |
| `LeaseTable.Table.PruneLeases` | external/dnsmasq/src/lease.c:463-488 | lease_prune in place |
| `LeaseTable.Table.SetLeaseExpires` | external/dnsmasq/src/lease.c:682-710 | lease_set_expires in place |
| `LeaseTable.Table.KillName` | external/dnsmasq/src/lease.c:776-796 | kill_name in place |
| `LeaseTable.Table.SetLeaseHostname` | external/dnsmasq/src/lease.c:798-889 | lease_set_hostname in place |
| `LeaseTable.Table.DoScriptRun` | external/dnsmasq/src/lease.c:917-1004 | do_script_run: event and lists |

## Left out

Cache:

- Records are held as sequences of fields by record number, not as objects with pointers; what is updated in place is the sequences and the link fields.
- A name is held by value: that a long name's block could be overwritten while it is still the key of a scan is not modelled.
- The address and the CNAME target of a record are separate fields, and clearing the target after an insertion (`rfc1035.c:943`) is part of the insertion.
- The mixing table of the hash is an unknown function of the lower-case name; the uid counter is unbounded.
- Reading hosts files, the reverse hash of `add_hosts_entry`, DHCP alias records, `cache_unhash_dhcp`, statistics and DNSSEC blocks. Hosts and DHCP records are flagged records outside the LRU list, and their CNAMEs point at such records only.
- Callers give exactly one of F_FORWARD and F_REVERSE, as every caller in the source does. Whether a block for a long name can be had is an input.

Demangler:

- Components are values; the sharing of arena entries and the patching of list cells after their creation are not modelled, only the number of entries taken.
- Numbers of 2^63 and more overflow a long of 64 bits, which C leaves undefined; the model keeps the number and converts it like the others. Texts are shorter than 2^30, so that the number of components fits an int.
- `Grammar.Expression`: what the source does after a vendor operator with two operands is undefined; there, as after a length negative as an int, the model marks the parse as lost and answers nothing.
- `Grammar.SourceName`: for a length negative as an int the source goes on from an earlier position, or from before the text; the model marks the parse as lost.
- `Parser.Demangler.SourceName`: the same, in place.
- `Parser.Demangler.Expression`: the same for vendor operators, in place.
- `Demangling.ReadName`: of a text that is lost the result is not the source's, only the place where it is lost.
- `expansion` and `did_subs`, which only estimate the printed length, and the printing pass.
- The mangler of the round trip covers builtin, indirect, qualified, array, class, template, nested and function types and the symbols of `Symbols`, not expressions, local, unnamed and closure types, conversions, vendor names or standard abbreviations; names in a symbol are written out, which they always are where a symbol starts.

Wire:

- Bitstring labels: a name with one is malformed in the model, because decoding and skipping advance differently on them.
- `NameReader.ExtractName`: does not decode bitstring labels.
- `NameReader.Skip`: does not skip bitstring labels.
- `ArpaNames.ArpaToAddress`: does not read the bitstring form of an IPv6 reverse name.
- For a compressed name the trailing bytes are checked where its last part ends, as in the source; nothing is promised about the bytes at the resume point.
- The comparing mode takes its name as a value; the decoding mode writes it to a buffer.
- `add_resource_record` takes its data as a list of items instead of a format string with arguments; the place of a domain name in the packet, which it can report, is not modelled.
- The domain search option is for buffers of at most 16384 bytes, which pointers can address; the configured line is far shorter. Names with non-ASCII characters need IDN, which is not compiled. An option 120 without any accepted name is not modelled.

Forwarding:

- Which servers are tried, in which order, and what opening a socket and sending come to are inputs, as are the drawn ids; the search for an id is given draws of which one is free. What is done to the packet of a reply before it is sent on, which may drop it, and the counters that make it ask all servers are left out.
- The record of the last packet sent (`srv_save`, `rfd_save`).

DHCP:

- `IaOptions.GrantReads`: for options whose length fits its 16 bits.
- `IaOptions.RenewalReads`: the same.
- `Relay.MaybeRelay`: only messages whose options fill them exactly, because the source does not check the lengths of the options it copies. What the server answers to an innermost message is a function of that message and the relay's link address; the tags that relay options set are not modelled.
- The conditions under which a lease is granted, prolonged or refused in `dhcp6_no_relay` are inputs of the identity associations; the other message types are left out.
- `Allocation6.Allocate6`: the search without OPT_CONSEC_ADDR. Leases and configured hosts are given as a predicate on contexts and host parts.
- Ranges are smaller than the machine word, otherwise the remainder by their size is not defined. Who answers a ping is an input, the same for the whole search.
- `lease4_allocate` writes through the result of a refused allocation; the model returns no lease.
- IPv6 names: uniqueness is not claimed for IPv6 leases. Hardware addresses, client identifiers, interfaces, the lease file and the DNS entries of leases are left out.

Not modelled at all: sockets, netlink, logging, the router advertisement and tethering code, command line parsing apart from the two pieces above, and the other tools of the repository.
