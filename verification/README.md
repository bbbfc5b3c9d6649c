# TinyOS kernel core: a verified model

TinyOS is a small x86 kernel written in C. This project models five of its components in Dafny and proves what
they promise: nested critical sections, the cryptographic constructions with the random generator, the
tamper-evident audit log, the copies between kernel and user memory, and the DHCP client. Code that changes
things step by step is modelled by classes and methods with loops, each proved against a specification function;
the specification functions are then the subject of the lemmas.

`dafny verify dfyconfig.toml` verifies everything.

## Components

- **Critical sections** (`Critical.dfy`, `CriticalRuns.dfy`, `Cpu.dfy`, `LockedRuns.dfy`). A machine with a
  stack of contexts: a thread, and above it interrupt and trap handlers, each anywhere inside
  `critical_section_enter`, `critical_section_exit` or the interrupt-context counter. A step is one flag
  instruction or one test or update of the counters. Interrupts arrive between any two steps the flag permits,
  traps between any two steps at all, and threads are preempted. `Cpu` is the sequential view that the other
  components use, tied to the steps. `LockedRuns` interleaves requests and reseeds of the random generator with
  log calls, verifications and clears of the audit log, made by many threads and handlers, with every access to
  the shared data a step of its own.
- **Crypto** (`Sha512.dfy`, `Hmac.dfy`, `Pbkdf2.dfy`, `AesTables.dfy`, `AesField.dfy`, `Aes.dfy`, `AesCode.dfy`,
  `AesKeys.dfy`, `AesCtr.dfy`, `AesInverse.dfy`, `AesColumns.dfy`, `AesDecrypt.dfy`, `AesDecryptCode.dfy`,
  `AesBytes.dfy`, `AesSbox.dfy`, `AesExpansion.dfy`, `CsprngSizes.dfy`, `Csprng.dfy`, `CsprngLimit.dfy`,
  `Keystream.dfy`, with `Bytes.dfy` below them). The compression function of SHA-512 and the ChaCha20 block
  function are parameters: every statement holds for any such function. The AES theorems hold for every sequence
  of round-key words, those that `AesKeys` expands among them.
- **Audit log** (`Audit.dfy`, `AuditRuns.dfy`, `AuditChain.dfy`, `AuditEntries.dfy`, `AuditCode.dfy`,
  `AuditSteps.dfy`). The ring of 1000 slots as a state machine, the plain list of events it stands for, the MAC
  chain and queries, the calls that were made, the in-place code, and the steps that its critical sections guard.
- **User-memory copy** (`CopyUser.dfy`). The mapping may change at every access. A fault is a jump out of the
  probe loop or the byte loop. What needs a fixed mapping says so.
- **DHCP client** (`DhcpOptions.dfy`, `DhcpAddress.dfy`, `DhcpClient.dfy`, `DhcpRuns.dfy`, `DhcpLeases.dfy`,
  `DhcpWire.dfy`, `DhcpExample.dfy`). Options, address checks, the client record with starts, frames and ticks as
  steps, the code, theorems over whole runs, the lease in force, what goes over the wire, and runs given byte by
  byte. The random numbers, the clock and the MAC address are inputs of each
  step.

## Where the obvious claim is false

Each case has an input at which it fails and the exact condition under which it holds.

- An untampered log does not always verify: verification starts from the zero tag, but after an overwrite the
  oldest survivor was chained to a dropped event. The condition is `AuditChain.VerificationExact` and, for a MAC
  that confuses no messages of the log, `AuditChain.AcceptedIffNothingLost`; the input is
  `AuditChain.RejectedExample`, 1001 log calls under a MAC for which `AuditChain.UntamperedRejected` rejects
  every such run.
- The three lease times are in order on the 32-bit clock, and no tick ends a lease early, exactly when the end
  of the lease does not wrap (`DhcpRuns.OrderedIff`, `DhcpRuns.NeverEarlyIff`). When its T1 wraps too, any three
  ticks end it, however early (`DhcpRuns.WrapExpiresAtOnce`; failing run `DhcpExample.GoneInThreeTicks`).
- A configuration does not always expire: after an honoured NAK, or a start, it stays in force until the next
  acknowledgement whatever the clock says (`DhcpRuns.OldConfigurationStays`; input `DhcpExample.NeverExpires`).
  Late ticks clear it exactly in the leased states (`DhcpRuns.ThreeTicksExpireIff`).
- A request that passes the test of the reseed limit has not always generated less than the limit since the last
  seeding: the byte count is 32 bits wide and wraps when entropy collection keeps failing. It has exactly when
  fewer than 2^32 bytes were generated (`LockedRuns.GrantsBelowLimit`; failing run
  `CsprngLimit.LimitPassedUnseen`; for one call after the other `Csprng.LimitMissed`).
- `aes_decrypt_block` does not invert `aes_encrypt_block`: the doubling macro is not parenthesised and is
  applied to sums. Its column step restores exactly 256 of the 2^32 columns, one for each first byte
  (`AesColumns.RestoredIff`; input `AesColumns.UnitNotRestored`). A block comes back if every main round
  restores its columns (`AesDecrypt.DecryptsRestorable`), and, if all but possibly one do, exactly when that one does
  (`AesDecrypt.DecryptsIff`); input `AesDecrypt.DecryptionFails`, for every number of rounds from two up.

## Model

| member | source | states |
|---|---|---|
| `Critical.InitialInv` | src/critical.h:27-37 | the boot state, with any number of threads and both counters zero, satisfies the invariant |
| `Critical.StepKeepsInv` | src/critical.h:43-106 | every step of every context (any instruction of enter, exit and the handler counters, an interrupt, a trap, an iret, a switch of threads) keeps the invariant: the depth is the number of open sections over the whole stack, the context counter the number of handlers inside, and contexts with an open section are shielded |
| `Critical.LocalStep` | src/critical.h:43-106 | a step of the context on top keeps the agreement between its place in the code, its nesting and the globals |
| `CriticalRuns.RunKeepsInv` | src/critical.h:43-106 | the invariant holds after every run |
| `CriticalRuns.InterruptsOffInside` | src/critical.h:43-76 | after every run from boot, depth above zero implies interrupts off |
| `CriticalRuns.OnlyTrapsAbove` | src/critical.h:58-67 | above a context with an open section there are only trap handlers |
| `CriticalRuns.HandlersKeepSaved` | src/critical.h:58-67 | no step of a handler that counts itself as interrupt context changes the saved flags |
| `CriticalRuns.BelowStandsStill` | src/critical.h:92-105 | while handlers run, however nested, every context below them, the saved flags and the parked threads stay as they were |
| `CriticalRuns.ExcursionIsInvisible` | src/critical.h:177-189 | an interrupt or trap with everything nested in it, up to its iret, leaves the whole machine exactly as it was |
| `CriticalRuns.SeenIsEntered` | src/critical.h:43-67 | in every run, every thread that is inside a section remembers the flag that its outermost enter read |
| `CriticalRuns.ExitGivesBackFlag` | src/critical.h:82-106 | the outermost exit of a thread restores exactly the interrupt flag seen at its matching enter, for every interleaving |
| `Cpus.EnterExitBalances` | src/critical.h:43-106 | sequentially, enter then exit changes nothing but the saved copy of the flag if and only if interrupts were off inside sections and handlers |
| `Cpus.Cpu.CriticalSectionEnter` | src/critical.h:43-76 | the whole new state of the globals and the interrupt flag |
| `Cpus.Cpu.CriticalSectionExit` | src/critical.h:82-106 | the whole new state, the flag given back only by the outermost exit outside handlers |
| `Cpus.EnterSteps` | src/critical.h:43-76 | the five instruction steps of an enter can be taken and have the effect of the sequential enter |
| `Cpus.ExitSteps` | src/critical.h:82-106 | the steps of an exit can be taken and have the effect of the sequential exit |
| `LockedRuns.OneHolder` | src/crypto.c:568-627 | above a context that holds the section there are only trap handlers, and they use neither the generator nor the log |
| `LockedRuns.NextKeepsInv` | src/crypto.c:568-676 | every step of every thread and handler keeps the generator, the audit log and each context's place in the code consistent |
| `LockedRuns.RunAllKeepsInv` | src/crypto.c:568-676 | the same after every run |
| `LockedRuns.LogDistance` | src/crypto.c:606-622 | in the log of generated blocks, two blocks of one epoch differ in counter by their distance, and requests and epochs never go back |
| `LockedRuns.RequestsAreNotTorn` | src/crypto.c:568-676 | for every interleaving the interrupt flag permits, all blocks of a request come from one whole key with consecutive counters, and within an epoch no counter comes twice within 2^64 blocks; a new key is written word by word |
| `LockedRuns.GrantsBelowLimit` | src/crypto.c:585-606 | for every interleaving, a request whose reseed did not fail starts with a 32-bit count below the limit, the count is the true number of bytes since the last seeding modulo 2^32, and that number is below the limit if and only if it is below 2^32 |
| `LockedRuns.AuditIsNotTorn` | src/audit.c:103-376 | for every interleaving of log calls, verifications and clears, events are numbered in order and each chained to the one before it, every finished verification accepted if and only if the ring had overwritten nothing by then, and the chaining word is the last tag whenever no call is inside |
| `AuditSteps.AdvanceOk` | src/audit.c:118-373 | each step of a log call, verification or clear, among them parking and restoring the chaining word, leaves the log as the next step expects it |
| `CsprngLimit.LimitPassedUnseen` | src/crypto.c:585-622 | from every boot state with one thread there is a run of one-block requests without entropy whose last request passes the limit test although 2^32 bytes were generated |
| `Csprng.KeyBytesOfSeed` | src/crypto.c:658-671 | the old state a reseed mixes in is exactly the 32 bytes the generator was last seeded with |
| `Csprng.RequestsContinue` | src/crypto.c:606-622 | two requests in a row read one keystream, the second from the next whole block |
| `Csprng.LimitMissed` | src/crypto.c:591-622 | after any number of requests without entropy, the next one with entropy keeps the old key if and only if the bytes generated modulo 2^32 are below the limit |
| `Csprng.Generator.Init` | src/crypto.c:512-544 | key words from the seed, counter and byte count zero |
| `Csprng.Generator.Reseed` | src/crypto.c:641-676 | the new key is the MAC of the entropy under the old key bytes, and the critical section balances |
| `Csprng.Generator.RandomBytes` | src/crypto.c:568-627 | output byte j is byte j mod 64 of the block at counter c + j/64 after a reseed if one was due and possible, nothing behind the request changes, the counters move on by the blocks and bytes used, and the critical section balances |
| `Csprng.Generator.Generate` | src/crypto.c:606-622 | the loop writes the keystream and moves the counter by the number of blocks modulo 2^64 |
| `Csprng.Generator.OneBlock` | src/crypto.c:606-619 | one block with the counter in words 12 and 13, copied to its place and nowhere else |
| `Keystream.WordsHold` | src/crypto.c:606-612 | words 12 and 13 together are the whole 64-bit counter, low half first, and words 4 to 11 are the key |
| `Keystream.ConstantsSpell` | src/crypto.c:524-528 | words 0 to 3 spell "expand 32-byte k" in little-endian order |
| `Keystream.KeyWordBytes` | src/crypto.c:530-534 | key word i is made of bytes 4i to 4i + 3 of the seed, least significant first |
| `Keystream.InputsInOrder` | src/crypto.c:606-622 | a row of requests under one key feeds the block function one row of states whose counter goes up by one |
| `Keystream.NoBlockTwice` | src/crypto.c:606-622 | over any row of requests under one key, no two blocks within 2^64 are made from the same 16 words |
| `Keystream.ByteFromInputs` | src/crypto.c:606-622 | byte j of a request comes out of block j/64 of those that it adds to the row |
| `Keystream.NoBlockTwiceInterleaved` | src/crypto.c:568-676 | the same for every interleaving of threads, handlers and reseeds |
| `Keystream.SeedsChain` | src/crypto.c:658-671 | after any row of reseeds the key is that of the chained seed: each is the MAC of the entropy under the first 32 bytes of the seed before it |
| `Sha512.AbsorbShort` | src/sha512.c:160-184 | a byte that does not fill the buffer keeps the state equal to the fold of the whole blocks plus the rest |
| `Sha512.AbsorbFull` | src/sha512.c:160-184 | a byte that fills the buffer and the compression that follows do the same |
| `Sha512.Context.Update` | src/sha512.c:160-184 | however a message is cut into updates, the context stands for the bytes fed so far |
| `Sha512.Context.AddCount` | src/sha512.c:164-173 | the two halves of the bit count, with the carry, are the 128-bit length |
| `Sha512.Context.Final` | src/sha512.c:189-225 | the digest is the fold over the padded message of FIPS 180-4 section 5.1.2, for every length |
| `Sha512.CountBytes` | src/sha512.c:195-201 | the two halves of the bit count print as the 16-byte big-endian length |
| `Sha512.PadParts` | src/sha512.c:189-215 | the padded message is the message, 0x80, the fewest zeros that make whole blocks, and the length in bits |
| `Sha512.ShortHash` | src/sha512.c:189-225 | a message that fits one block with its padding is compressed once, from the initial value |
| `Sha512.InitialRoots` | src/sha512.c:77-84 | the initial words are the first 64 bits of the fractions of the square roots of the first eight primes |
| `Sha512.HashOne` | src/sha512.c:230-235 | the one-call form is the hash of the data |
| `Sha512.HashTwo` | src/crypto.c:438-442 | the outer hash of the MAC is the hash of the concatenation |
| `Hmac.FlipAll` | src/crypto.c:412-414 | the key block with the pad flipped into every byte |
| `Hmac.PrepareKey` | src/crypto.c:397-405 | the key block of RFC 2104 section 2, hashed first when longer than a block |
| `Hmac.Context.constructor` | src/crypto.c:394-418 | a context that has authenticated nothing yet |
| `Hmac.Context.Update` | src/crypto.c:420-422 | the bytes authenticated so far grow by the data |
| `Hmac.Context.Final` | src/crypto.c:424-446 | the tag is the RFC 2104 section 2 value of the concatenation of all updates, for short and long keys |
| `Hmac.MacOf` | src/crypto.c:448-456 | the one-call form is that same value |
| `Hmac.MacByBytes` | src/crypto.c:394-446 | the tag is H((K xor 5c..) H((K xor 36..) text)) with K the key, or its hash if longer than a block, and zeros |
| `Hmac.KeysAlike` | src/crypto.c:397-405 | zeros behind a key that fits the block do not matter, and a longer key is the same as its hash |
| `Pbkdf2.DerivedByte` | src/crypto.c:745-791 | byte j of the key is byte j mod 64 of T_(j/64+1) of RFC 2898 section 5.2 |
| `Pbkdf2.DerivedIsSum` | src/crypto.c:745-791 | byte j of the key is the sum of the bytes in its place over the chained MACs of its block, the first one of the salt and the block number |
| `Pbkdf2.ShorterIsPrefix` | src/crypto.c:745-791 | a shorter key is a prefix of a longer one |
| `Pbkdf2.DeriveBlock` | src/crypto.c:757-781 | the inner loop computes T_i, the exclusive or of the chained MACs, for every iteration count from one up |
| `Pbkdf2.Derive` | src/crypto.c:745-791 | the output holds the truncated concatenation of the T_i for every key length, and nothing behind it changes |
| `AesTables.InvSubUndoes` | src/crypto.c:41-78 | the second table undoes the first on all 256 bytes |
| `AesTables.SubUndoes` | src/crypto.c:41-78 | and the first undoes the second |
| `AesSbox.SubByteIsInverse` | src/crypto.c:41-58 | the S-box takes the inverse in GF(2^8), with zero for zero, and applies the affine transformation of FIPS 197 section 5.1.1, on all 256 bytes |
| `AesField.XtimeAdds` | src/crypto.c:86 | doubling in GF(2^8) is additive |
| `AesField.MixOrderFour` | src/crypto.c:191-205 | the column transform applied four times is the identity on every column |
| `Aes.SubBytesUndone` | src/crypto.c:123-127 | substitution is undone by the inverse table |
| `Aes.ShiftRowsRule` | src/crypto.c:137-161 | the byte in a row and column comes from that row, as many columns on as the row's number |
| `Aes.ShiftRowsUndone` | src/crypto.c:137-161 | the row shifts are a permutation with the stated inverse |
| `Aes.MixColumnsUndone` | src/crypto.c:191-205 | three more column transforms undo one |
| `Aes.AddRoundKeyUndone` | src/crypto.c:230-237 | adding a round key twice is the identity |
| `Aes.MainRoundsUndone` | src/crypto.c:255-262 | any number of main rounds is undone, for every key schedule |
| `Aes.EncryptUndone` | src/crypto.c:249-270 | encryption has a left inverse, for every key schedule and number of rounds |
| `Aes.EncryptInjective` | src/crypto.c:249-270 | two different blocks never encrypt to one ciphertext |
| `AesBytes.FirstByBytes` | src/crypto.c:253-254 | before the first round each byte of the block is added to its byte of the first four key words |
| `AesBytes.RoundByBytes` | src/crypto.c:256-262 | each column after a round: twice one byte of the substituted and shifted column, three times the next, and the other two, plus its bytes of key word 4n + c |
| `AesBytes.LastByBytes` | src/crypto.c:264-267 | each byte of the ciphertext: the last state substituted and shifted, plus its byte of the last four key words |
| `AesKeys.ExpandKey` | src/crypto.c:89-120 | the loop computes the key schedule of FIPS 197 section 5.2 for 256-bit keys |
| `AesKeys.FirstRoundKeys` | src/crypto.c:93-97 | the first two round keys, as the cipher takes them apart, are the key |
| `AesKeys.WindowDeterminesKey` | src/crypto.c:99-119 | any eight consecutive words of the schedule determine the key |
| `AesExpansion.RconPowers` | src/crypto.c:81-83 | the round constants are the powers of x in GF(2^8), in the top byte |
| `AesExpansion.WordByBytes` | src/crypto.c:99-119 | each byte of each word from the bytes of the two words it is made of: substituted at multiples of four, rotated and with the round constant at multiples of eight |
| `AesExpansion.AppendixA3` | src/crypto.c:89-120 | words 8 to 23 of the key of FIPS 197 appendix A.3 |
| `AesCode.SubBytesInPlace` | src/crypto.c:123-127 | the in-place loop equals the substitution of every byte |
| `AesCode.ShiftRowsInPlace` | src/crypto.c:137-161 | the in-place rotations equal the row shift |
| `AesCode.MixColumnsInPlace` | src/crypto.c:191-205 | the in-place loop equals the column transform |
| `AesCode.AddRoundKeyInPlace` | src/crypto.c:230-237 | the in-place loop adds the bytes of the round's four key words |
| `AesCode.EncryptBlock` | src/crypto.c:249-270 | the code computes the cipher, also when input and output are one buffer |
| `AesInverse.ThreeMixesInvert` | src/crypto.c:191-205 | three more column transforms are the 0e 0b 0d 09 matrix of FIPS 197 section 5.3.3, on every column |
| `AesDecrypt.InvMixedColumn` | src/crypto.c:191-205 | the inverse that undoes encryption is that matrix, column by column |
| `AesColumns.UnitNotRestored` | src/crypto.c:208-227 | the column (1,0,0,0) mixes to (2,1,1,3), from which the code makes (0c,13,0f,11) |
| `AesColumns.CodeInvAdds` | src/crypto.c:208-227 | the code's column step is additive |
| `AesColumns.RestoredIff` | src/crypto.c:208-227 | the code's step restores a mixed column if and only if it is the one column that belongs to its first byte |
| `AesColumns.CodeInvInjective` | src/crypto.c:208-227 | the code's column step sends no two columns to one |
| `AesDecrypt.ColumnsBackIff` | src/crypto.c:208-227 | a mixed state comes back if and only if all four columns are of that kind |
| `AesDecrypt.DecryptsRestorable` | src/crypto.c:273-295 | decryption gives the block back when every main round restores its columns, for every key schedule |
| `AesDecrypt.DecryptInjective` | src/crypto.c:273-295 | two different ciphertexts never decrypt to one block, for every key schedule and number of rounds |
| `AesDecrypt.DecryptsIff` | src/crypto.c:273-295 | when all main rounds but possibly one do, whichever it is, exactly when that one does |
| `AesDecrypt.DecryptionFails` | src/crypto.c:273-295 | for every number of rounds from two up there are round keys and a block that does not come back |
| `AesDecryptCode.InvSubBytesInPlace` | src/crypto.c:130-134 | the in-place loop equals the inverse substitution |
| `AesDecryptCode.InvShiftRowsInPlace` | src/crypto.c:164-188 | the in-place rotations equal the inverse row shift |
| `AesDecryptCode.InvMixColumnsInPlace` | src/crypto.c:208-227 | the in-place loop equals the code's column step, with the macro expanded as text |
| `AesDecryptCode.DecryptBlock` | src/crypto.c:273-295 | the code computes that decryption, also when input and output are one buffer |
| `AesCtr.IncrementCounts` | src/crypto.c:372-375 | the carry loop adds one modulo 256^n, for every block |
| `AesCtr.CounterStep` | src/crypto.c:356-377 | the counter block at position k is the big-endian value (iv + k) mod 2^128 |
| `AesCtr.CryptTwice` | src/crypto.c:356-377 | applying the mode twice restores every input of every length |
| `AesCtr.CryptPrefix` | src/crypto.c:356-377 | a prefix encrypts to the prefix of the ciphertext |
| `AesCtr.CryptByte` | src/crypto.c:356-377 | byte j is the data plus byte j mod 16 of the cipher of (iv + j/16) mod 2^128 |
| `AesCtr.KeystreamBlocksDiffer` | src/crypto.c:356-377 | no two blocks of the keystream within 2^128 are the same, for every key schedule |
| `AesCtr.LoopEndsIff` | src/crypto.c:356-377 | the 32-bit loop index reaches the end of the data if and only if the length is at most 2^32 - 16 |
| `AesCtr.IncrementInPlace` | src/crypto.c:372-375 | the loop with its early exit computes the increment |
| `AesCtr.CryptBuffer` | src/crypto.c:356-377 | the code computes the mode for every length for which its loop ends, also in place, and writes nothing behind the data |
| `Audit.MessageInjective` | src/audit.c:52-73 | what is fed to the MAC determines the previous tag and every field of the event but its own tag |
| `AuditRuns.LoggedRepresents` | src/audit.c:103-204 | a log call keeps the ring, the counters and the statistics in agreement with the list of events, extended by the new one |
| `AuditRuns.WipedRepresents` | src/audit.c:358-373 | a clear makes the log stand for the empty list that continues the numbering |
| `AuditRuns.VerifiedRepresents` | src/audit.c:291-344 | a verification keeps the agreement |
| `AuditRuns.ChronicleIsTail` | src/audit.c:231-240 | the ring read from its start index is the last min(n, 1000) events in order |
| `AuditRuns.RunRepresents` | src/audit.c:81-376 | the agreement holds after every run of logs, verifications and clears |
| `AuditRuns.RingAfterRun` | src/audit.c:103-376 | after every run the ring holds the last min(n, 1000) of the n events since the last clear, with consecutive numbers; in buffer plus dropped is n, total is the next number, and oldest and newest match the ends |
| `AuditChain.VerificationExact` | src/audit.c:291-344 | verification accepts an untampered log if and only if nothing was overwritten or the oldest survivor's tag happens to be right under the zero tag |
| `AuditChain.AcceptedIffNothingLost` | src/audit.c:291-344 | for a MAC without a zero tag and without collisions on this log's messages, it accepts if and only if nothing was overwritten |
| `AuditChain.AcceptedAfterRun` | src/audit.c:291-344 | the same over every run since init, with buffer and chaining value left as they were |
| `AuditChain.UntamperedRejected` | src/audit.c:301-335 | under a concrete MAC every run with more than 1000 events since the last clear is rejected |
| `AuditChain.RejectedExample` | src/audit.c:301-335 | such a run is one log call 1001 times over |
| `AuditChain.ChainBinds` | src/audit.c:311-339 | two lists of one length that verify and agree in a tag agree up to it, or exhibit two messages with one MAC |
| `AuditChain.SameLastTagSameLog` | src/audit.c:52-73 | without such a collision, two logs that verify and end in one MAC are identical |
| `AuditChain.MatchingMembers` | src/audit.c:243-275 | the selected events are exactly those that match the filter |
| `AuditChain.AnswerIncreasing` | src/audit.c:220-281 | barring a wrap of the number, answers come in increasing number order, for every head, fill level and filter |
| `AuditEntries.LogTellsCalls` | src/audit.c:103-376 | over every run, event i of the buffer has the time, user, process, kind and severity of the call it came from, and its text up to the first NUL, for the last min(n, 1000) calls since the last clear by root, told from the calls alone |
| `AuditEntries.QueryFinds` | src/audit.c:220-281 | over every run, a query finds an event of the buffer if and only if the filter asks for the call it records |
| `AuditEntries.TampersCount` | src/audit.c:330-334 | over every run the statistics count exactly the refused verifications |
| `AuditEntries.MessageLayout` | src/audit.c:52-73 | where each field stands in the 180 bytes that are authenticated |
| `AuditCode.ConstantTimeCompare` | src/crypto.c:862-872 | the accumulated difference is zero if and only if the two strings are equal |
| `AuditCode.CopyText` | src/util.c:200-214 | the description field: the text up to its first NUL or 95 bytes, a NUL, then the bytes the slot held before |
| `AuditCode.AuditLog.constructor` | src/audit.c:27-43 | the static data before init |
| `AuditCode.AuditLog.ComputeHmac` | src/audit.c:52-73 | the eight updates compute the tag of the event under the current chaining value |
| `AuditCode.AuditLog.Init` | src/audit.c:81-101 | a fresh log under the new key with the boot event |
| `AuditCode.AuditLog.LogRaw` | src/audit.c:103-204 | the whole new log, nothing before init, and a balanced critical section |
| `AuditCode.AuditLog.Applies` | src/audit.c:243-268 | the filter tests, one after the other, are the match |
| `AuditCode.AuditLog.Query` | src/audit.c:220-281 | the results are the first max matches of the chronological list, the rest of the array is untouched, and the error cases return 0 |
| `AuditCode.AuditLog.VerifyIntegrity` | src/audit.c:291-344 | the answer is the chain check from the zero tag, only the tamper count changes, and the critical section balances |
| `AuditCode.AuditLog.WalkChain` | src/audit.c:301-339 | the loop that sets and restores the chaining value around each recomputation leaves it as it was |
| `AuditCode.AuditLog.Clear` | src/audit.c:346-376 | the attempt is logged, only root clears, numbers and total go on |
| `CopyUser.LastTest` | src/copy_user.c:234-235 | the test probes the last byte if and only if the range does not end on a page boundary, also when the subtraction wraps |
| `CopyUser.ProbesCover` | src/copy_user.c:227-238 | every page that meets the range holds a probed address, for every start offset and length |
| `CopyUser.ProbesInside` | src/copy_user.c:227-238 | no probe of the loop leaves the range |
| `CopyUser.ProbesDecide` | src/copy_user.c:227-248 | under a fixed mapping all probes succeed if and only if every page of the range is backed |
| `CopyUser.WalkedPages` | src/pae.c:726-767 | every page of a range that passed the walk is present and open to user code at every level, writable at every level for a write, and above the null page |
| `CopyUser.Copier.Touch` | src/copy_user.c:507-529 | a fault sets the error code and leaves the loop |
| `CopyUser.Copier.WalkRange` | src/pae.c:705-798 | true if and only if paging is on, the range is in bounds and on every page the directory and, unless it maps a large page, the table entry are present, for users, and writable for a write; the critical section balances |
| `CopyUser.Copier.ProbeLoop` | src/copy_user.c:228-232 | the loop succeeds if and only if each of its probes finds its page at that moment |
| `CopyUser.Copier.ProbeRange` | src/copy_user.c:227-248 | the same with the last byte, and nothing but the probes is accessed |
| `CopyUser.Copier.Prepare` | src/copy_user.c:75-248 | every error exit restores the context and balances the section; under a fixed mapping it succeeds if and only if the request is permitted |
| `CopyUser.Copier.CopyFromUser` | src/copy_user.c:71-313 | for any mapping: `active` as on entry, section balanced, exact error codes, accesses only inside the range, success means the bytes are there and every page was present and open to user code at every level, and a page of the kernel's own in the range gives -EFAULT; under a fixed mapping 0 if and only if empty or permitted, and otherwise the destination is untouched |
| `CopyUser.Copier.CopyToUser` | src/copy_user.c:321-488 | the same for writing to user memory, with every page writable at every level, where nothing outside the range changes in any case |
| `CopyUser.Copier.CopyStringFromUser` | src/copy_user.c:556-581 | under a fixed mapping: stops at the first unreadable or NUL byte or at max_len, with -EFAULT, the length as a C int, or -ENAMETOOLONG and an empty string; the bytes copied are the string, and no byte past the stop is read |
| `CopyUser.StopsOnce` | src/copy_user.c:564-575 | where the copy stops is determined by memory and mapping |
| `CopyUser.StringSucceedsIff` | src/copy_user.c:556-581 | into a buffer of the kernel it succeeds if and only if the first NUL comes within max_len with everything through it readable, and then returns its place and has copied the string, on no page of the kernel's own; into any buffer it is too long if and only if max_len readable bytes are not NUL, and then leaves an empty string |
| `CopyUser.StringPages` | src/copy_user.c:564-575 | a string that is copied through its NUL lies on no page of the kernel's own |
| `CopyUser.LengthFits` | src/copy_user.c:573 | a string and the kernel buffer that takes it do not overlap, so the length always fits the C int that is returned |
| `DhcpOptions.CapNeverFires` | src/dhcp.c:123-136 | on streams of at most 512 bytes the iteration cap changes nothing |
| `DhcpOptions.LastWins` | src/dhcp.c:172-219 | the value of a field is that of the last occurrence that fits |
| `DhcpOptions.FoundAt` | src/dhcp.c:172-219 | a value other than the default comes from an option that no later one overrides |
| `DhcpOptions.ReadStep` | src/dhcp.c:172-219 | overwriting field by field is the same as taking the last occurrence |
| `DhcpOptions.Parse` | src/dhcp.c:115-225 | the parser stays in bounds and equals the last-occurrence reading of the decoded stream, and counts a malformed stream exactly when it breaks off |
| `DhcpOptions.Switch` | src/dhcp.c:172-219 | what one option does to the fields |
| `DhcpOptions.RoundTrip` | src/dhcp.c:288-344 | decoding an encoded list of options gives the list back, whatever follows |
| `DhcpOptions.Build` | src/dhcp.c:286-346 | the builder writes the encoding of the message's options and never runs out of room |
| `DhcpOptions.BuiltReadsBack` | src/dhcp.c:115-346 | parsing what the builder wrote returns its message type and server, for every input, with nothing else set |
| `DhcpAddress.MaskIsPrefix` | src/dhcp.c:438-448 | the mask test accepts exactly the contiguous prefixes /8 to /30 |
| `DhcpAddress.HostIsBetween` | src/dhcp.c:450-459 | the host test holds if and only if the address is strictly between network and broadcast address |
| `DhcpAddress.IsNetOrBcast` | src/dhcp.c:451-459 | the bytewise loop equals the 32-bit host test |
| `DhcpAddress.SameSubnet` | src/dhcp.c:461-466 | the bytewise loop equals the 32-bit subnet test |
| `DhcpAddress.ClassfulIsMask` | src/dhcp.c:479-486 | the default mask is /8, /16 or /24 by class, and valid |
| `DhcpAddress.OfferIsValid` | src/dhcp.c:470-504 | accepts exactly the usable configurations, with the mask that was sent or the classful one |
| `DhcpAddress.UsableIff` | src/dhcp.c:470-504 | an offer is accepted if and only if a server is named, the own address is unicast and strictly inside a contiguous subnet of 8 to 30 bits, the gateway is absent or another host strictly inside it, and the name server is absent or unicast |
| `DhcpAddress.GatewayNotSpecial` | src/dhcp.c:493-499 | an accepted gateway is not a special address either, although the code does not look at that |
| `DhcpClient.Schedule` | src/dhcp.c:633-706 | the clamped lease is 60 seconds to 30 days and T1 within a tenth of its half, both as computed in 32-bit arithmetic |
| `DhcpClient.Dhcp.constructor` | src/dhcp.c:386-399 | the initial record |
| `DhcpClient.Dhcp.Send` | src/dhcp.c:230-377 | the options of the message are those the specification encodes |
| `DhcpClient.Dhcp.Start` | src/dhcp.c:404-412 | a new transaction in SELECTING with a DISCOVER sent |
| `DhcpClient.Dhcp.HandleDhcp` | src/dhcp.c:509-763 | record and effects are those of the frame step, and a frame that is not a taken OFFER, ACK or NAK leaves both as they were |
| `DhcpClient.Dhcp.TakeOffer` | src/dhcp.c:559-590 | the OFFER branch, with refused offers leaving everything as it was |
| `DhcpClient.Dhcp.TakeAck` | src/dhcp.c:592-742 | the ACK branch: server and address must match, then the lease and the configuration |
| `DhcpClient.Dhcp.TakeNak` | src/dhcp.c:744-761 | the NAK branch: honoured only with a request outstanding and from its server |
| `DhcpClient.Dhcp.Tick` | src/dhcp.c:790-901 | the record and effects of the tick step |
| `DhcpRuns.LatestCameFrom` | src/dhcp.c:559-590 | the latest accepted offer came in an event after which no OFFER was accepted |
| `DhcpRuns.StepKeepsInv` | src/dhcp.c:509-901 | every start, frame and tick keeps the record equal to the latest accepted offer and the lease in range |
| `DhcpRuns.RunKeepsInv` | src/dhcp.c:509-901 | the same after every run |
| `DhcpRuns.XidNeverZero` | src/dhcp.c:95-105 | over every run, once started the client is never back in INIT and never waits on transaction number zero |
| `DhcpRuns.StepApplies` | src/dhcp.c:592-742 | a configuration is applied exactly by a taken ACK, and it is the one in the record |
| `DhcpRuns.AppliedIsLatestOffer` | src/dhcp.c:592-742 | over every run, each configuration applied is exactly the address, mask and router of the latest accepted OFFER, on an ACK with that OFFER's server and address, and satisfies the validator |
| `DhcpRuns.ActingFrameSpeaks` | src/dhcp.c:509-763 | every frame that changes the record or has an effect is, byte for byte, a reply to the outstanding transaction whose last message type is OFFER, ACK or NAK and whose last server identifier is not zero |
| `DhcpRuns.RequestNamesServer` | src/dhcp.c:585-588 | the request sent on an accepted OFFER reads back as a REQUEST to its server |
| `DhcpWire.SentOnFrame` | src/dhcp.c:404-763 | the options sent, by number: a start or honoured NAK sends a DISCOVER under the number drawn, an accepted OFFER a REQUEST for its address to its server, no other frame anything |
| `DhcpWire.SentOnTick` | src/dhcp.c:790-901 | at T1 a REQUEST for the own address to its server, at T2 one that names no server, at the end a DISCOVER, each under the number drawn; any other tick sends and changes nothing |
| `DhcpWire.ReplyOptions` | src/dhcp.c:172-219 | options 53, 54, 1, 3, 6 and 51 give the message type, server, mask, first router, first name server and lease |
| `DhcpWire.ReplyIff` | src/dhcp.c:514-539 | a frame is looked at if and only if it has 240 bytes, is a BOOTREPLY, and has the transaction number at byte 4 and the cookie 63 82 53 63 at byte 236 |
| `DhcpWire.FrameTaken` | src/dhcp.c:559-763 | over every run, exactly which OFFER, ACK and NAK frames are taken, in terms of the state, the bytes and the latest accepted OFFER; no other frame changes the record |
| `DhcpClient.NoOverflow` | src/dhcp.c:686-706 | no tick product of a lease of at most 30 days overflows 32 bits |
| `DhcpClient.RenewBounds` | src/dhcp.c:686-706 | the jittered T1 is between 45 and 55 percent of the lease |
| `DhcpRuns.OffsetsOrdered` | src/dhcp.c:686-706 | the jittered T1 is strictly before T2, which is strictly before the end |
| `DhcpRuns.OrderedIff` | src/dhcp.c:814-895 | on the 32-bit clock the times are in order if and only if the end of the lease does not wrap |
| `DhcpRuns.LeaseInEveryRun` | src/dhcp.c:633-706 | all of that in every reachable BOUND, RENEWING or REBINDING state, with a lease of 60 to 2,592,000 seconds |
| `DhcpLeases.LeaseRead` | src/dhcp.c:205-215 | the lease read from a frame is that of its last four-byte option 51, or 0 |
| `DhcpLeases.LeaseInForce` | src/dhcp.c:633-706 | over every run, in every leased state: the lease began at the clock of the latest ACK taken, whose random number places T1, and is the one of the last frame among the latest accepted OFFER and the ACKs since that gives one, below 60 seconds taken as 600 and above 30 days as 30 days |
| `DhcpLeases.TickByAge` | src/dhcp.c:814-895 | over every run, a tick in a lease that does not wrap moves on exactly by the age of the lease: at the T1 drawn, at seven eighths, and at the end |
| `DhcpLeases.AckEffects` | src/dhcp.c:712-740 | over every run, a taken ACK applies the address, mask and router of the latest accepted OFFER and sets its name server unless that is zero, and nothing else does either |
| `DhcpRuns.ClearedIff` | src/dhcp.c:873-895 | a step clears `configured` if and only if it is a tick in REBINDING at or after the end |
| `DhcpRuns.ClearedAfterExpiry` | src/dhcp.c:873-895 | over every run it is cleared only so, and after the whole lease unless the end wraps |
| `DhcpRuns.NeverEarlyIff` | src/dhcp.c:880-884 | no tick can end a lease early if and only if its end does not wrap |
| `DhcpRuns.WrapExpiresAtOnce` | src/dhcp.c:814-895 | any three ticks from the start of a lease whose T1 wraps give the address up, however early they come |
| `DhcpRuns.ThreeTicksExpireIff` | src/dhcp.c:814-895 | three ticks at or after the end of a lease that does not wrap clear a configuration if and only if the client is in a leased state |
| `DhcpRuns.OldConfigurationStays` | src/dhcp.c:744-761 | over every run, after an honoured NAK or a start in a configured state and until the next taken ACK, the client stays configured and seeking and applies nothing, whatever frames and ticks come |
| `DhcpExample.ReplyReads` | src/dhcp.c:509-556 | the client reads from a reply, laid out byte by byte, the transaction, address and options that were put into it |
| `DhcpExample.ConfigurationApplied` | src/dhcp.c:559-742 | a start, such an OFFER and such an ACK apply 10.0.0.5 with mask 255.0.0.0 |
| `DhcpExample.NeverExpires` | src/dhcp.c:404-412 | started once more after that, the client keeps the configuration through any number of ticks |
| `DhcpExample.GoneInThreeTicks` | src/dhcp.c:404-895 | a start, OFFER and ACK four clock ticks before the wrap apply a lease of at least 60 seconds that the next three timer ticks take away |

## Left out

- CBC mode: its decryption rests on the block decryption that does not invert encryption.
- The 80 rounds of SHA-512 and the 20 rounds of ChaCha20: both are function parameters, and nothing proved depends on them.
- Entropy gathering: a reseed either gets some bytes or fails, as an input of the step.
- Zeroization, timing, `volatile`, register save and restore, and EFLAGS bits other than the interrupt flag.
- Task switching while a section is open, which the scheduler does not do.
- The receive counters of the DHCP client, printing, ARP, the firewall call and the transmission itself: only the options of a message and the calls that set the configuration and the DNS server are kept.
- Address-space randomisation (one bounded draw for each placement), the name tables of events and severities, and the embedded binaries, which hold no logic.
- Code that sets the interrupt flag while a section is open: the machine has no such step.
- Cpus.Cpu.CriticalSectionEnter: assumes fewer than 2^32 - 1 open sections, as the source documents at that line.
- CriticalRuns.HandlersKeepSaved: every handler counts itself before it runs kernel code, as the common interrupt handler does; the page-fault gate does not, but a page fault in kernel code ends in a panic, a halt or the copy jump, so an uncounted handler never resumes a section's own enter or exit.
- LockedRuns.RequestsAreNotTorn: a trap handler uses the generator only if no section was open when the trap came, and a reseed zeroes its counters in one step.
- LockedRuns.AuditIsNotTorn: the same for the log; tags stand for the events they belong to, so that a tag matches only under the right chaining word.
- AesDecrypt.DecryptsIff: for blocks for which two or more rounds fail, no condition short of following the rounds is given.
- AesDecrypt.DecryptionFails: the round keys are chosen freely and not shown to come from a key.
- AesDecryptCode.DecryptBlock: at least one round; with none the source's round counter would wrap, and it is always 14.
- AesCtr.CryptBuffer: requires a length of at most 2^32 - 16, beyond which the loop of the source does not end.
- AuditCode.AuditLog.Init: takes the key as an input instead of drawing it from the generator.
- AuditCode.AuditLog.Clear: the kind, severity and text under which the attempt is logged are inputs.
- AuditCode.AuditLog.LogRaw: the uptime, the process number and the formatted text are inputs, and the serial line is not modelled.
- CopyUser.Copier.WalkRange: a non-empty range, as the copies ensure by returning early for an empty one.
- CopyUser.Copier.CopyFromUser: the contents of user memory do not change during the copy; only the mapping may.
- CopyUser.Copier.CopyToUser: the same; writes by other parties are not modelled.
- DhcpClient.Dhcp.Send: models the option field only, not the Ethernet, IP, UDP and fixed DHCP headers around it.
- DhcpRuns.ClearedAfterExpiry: speaks of one 32-bit clock value, so a lease older than one round of the clock is not told apart.
