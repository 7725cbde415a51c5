# Verified models of GnuPG components

Dafny models of the parts of GnuPG 2.0 (branch gpg2ecc) whose correctness is a theorem rather
than a matter of inspection, with proofs of those theorems.

- **PKCS#12** (`Der`, `P12Layout`, `P12Reader`, `P12RoundTrip`, `P12Build`, `P12Parse`, `P12Standard`, `P12`):
  the writer that sizes nested objects from the inside out and writes them from the outside in,
  and the hand-written reader. Reading undoes writing.
- **Private key protection** (`Sexp`, `ProtectSpec`, `ProtectRoundTrip`, `Protect`,
  `ProtectText`, `MergeSize`), the OpenPGP string-to-key functions (`S2k`, `ProtectKey`) and **shadow keys** (`Convert`,
  `Shadow`): cutting, encrypting, splicing and merging canonical S-expressions.
- **Buffered streams** (`FlatFile`, `FlatRuns`, `Estream`): one buffer for reading and writing, with pushback
  and seek, over a backend with short transfers. It behaves as a byte array with one position
  and a stack of bytes that were pushed back.
- **Base-64 armor** (`Crc24`, `Base64`, `ArmorRoundTrip`, `ArmorText`, `Base64Codec`): the streaming encoder,
  the in-place decoder and the table-driven checksum.
- **Passphrase cache** (`CacheSpec`, `CacheRuns`, `CacheExact`, `CacheLifetimes`, `CacheList`): a list with expiry and pins that
  refines a map and never takes back a pinned secret.
- **printf engine** (`PrintfParse`, `PrintfInteger`, `PrintfArgs`, `PrintfText`, `Printf`,
  `PrintfEntry`, `PrintfSpell`, `PrintfResult`): two scans of the format, positional arguments,
  integer layout, output sinks, and what a format prints from its characters on.
- **Trust list** (`Trustlist`, `TrustStore`, `TrustText`), **smartcard daemon contexts** (`Scd`) and the **RSA
  key check** (`NumberTheory`, `RsaKeyCheck`).

Each component has the shape of its source: classes with the fields that the source updates,
loops where the source loops, and early exits where it exits. A method is proved equal to a
function of its input, for every input; the theorems are lemmas about those functions and over
whole runs. What is fixed by a standard or by the format of a file is stated in characters and
numbers, beside the functions that the code shares with its specification. Block ciphers, digests, key derivation, the message authentication code, the
environment of printf, the user's answers and the answers of other processes are parameters.
Decryption is only assumed to undo encryption, and digests to have their length.

`dafny verify dfyconfig.toml` checks everything.

## Model

| member | source | states |
|---|---|---|
| Estream.Stream.RunAll | branches/gpg2ecc/gnupg/common/estream.c:1005-1687 | For every list of reads, writes, single-byte reads and writes, seeks, pushbacks of any bytes in any mode and write-mode flushes, every buffer size and strategy, over a backend that may transfer less than asked: all replies are those of one byte array with a position and a stack of pushed back bytes, up to the write that aborts if one does; without an abort the final contents (backend plus pending buffer), position and stack are too. |
| Estream.Stream.RunPlain | branches/gpg2ecc/gnupg/common/estream.c:1005-1687 | If only bytes are pushed back that stand in front of the position, as after reading them, the stream answers as one byte array with one position, and leaves its contents and position. |
| Estream.Stream.Do | branches/gpg2ecc/gnupg/common/estream.c:1005-1687 | One operation on any valid stream is one step of the reference: reply, contents, position, direction and pushed back bytes all agree. |
| Estream.Stream.Fill | branches/gpg2ecc/gnupg/common/estream.c:1005-1045 | The refilled buffer holds the backend bytes at the new offset; it is empty only at the end of the file, and then the end flag is set. |
| Estream.Stream.FlushBuffer | branches/gpg2ecc/gnupg/common/estream.c:1048-1115 | Everything pending reaches the backend however short its writes are, so the backend holds what the stream stood for; the assertion on the writing flag fails exactly on a stream not marked as writing. |
| Estream.Stream.ReadUnbuffered | branches/gpg2ecc/gnupg/common/estream.c:1266-1301 | Repeated short backend reads add up to exactly what a flat read of that size gives. |
| Estream.Stream.ReadBuffered | branches/gpg2ecc/gnupg/common/estream.c:1303-1350 | Any mixture of buffered bytes and refills adds up to exactly what a flat read gives, and a short result sets the end flag. |
| Estream.Stream.ReadPushedBack | branches/gpg2ecc/gnupg/common/estream.c:1389-1396 | What was pushed back comes out first, last byte first, and the rest of it stays. |
| Estream.Stream.StopWriting | branches/gpg2ecc/gnupg/common/estream.c:1380-1387 | Leaving write mode keeps contents and position; nothing pending is lost. |
| Estream.Stream.Readn | branches/gpg2ecc/gnupg/common/estream.c:1367-1424 | A read from any state delivers what was pushed back and then what a flat read returns, and moves stack and position by that much. |
| Estream.Stream.Unreadn | branches/gpg2ecc/gnupg/common/estream.c:1427-1451 | As many bytes as there is room for go on top of those already pushed back, whatever they are; contents and position stay. |
| Estream.Stream.Seek | branches/gpg2ecc/gnupg/common/estream.c:1453-1509 | The new position is the one a flat file would have, a relative seek counting from the position less what was pushed back; contents and pending output are kept, a success drops the stack and a failure changes nothing. |
| Estream.Stream.WriteUnbuffered | branches/gpg2ecc/gnupg/common/estream.c:1512-1553 | Short backend writes add up to one overwrite at the position. |
| Estream.Stream.WriteBuffered | branches/gpg2ecc/gnupg/common/estream.c:1556-1597 | The contents become those of one overwrite at the position; the call aborts exactly when it overflows the buffer while the stream is still marked as reading. |
| Estream.Stream.WriteLineBuffered | branches/gpg2ecc/gnupg/common/estream.c:1600-1631 | The same for line buffering; it aborts exactly when a stream still marked as reading gets a line feed or more than one buffer. |
| Estream.Stream.Writen | branches/gpg2ecc/gnupg/common/estream.c:1634-1687 | A write while writing is one overwrite at the position; one behind reading is an overwrite where reading stopped and drops the stack, is refused if more was pushed back than stands in front of the position, and aborts if and only if it needs a flush. |
| Estream.Stream.Tell | branches/gpg2ecc/gnupg/common/estream.c:1986-2000 | The reported offset is the position less what was pushed back, or 0 if that is negative, in both directions. |
| Estream.Stream.FlushWritten | branches/gpg2ecc/gnupg/common/estream.c:2430-2450 | Flushing while writing changes neither contents nor position. |
| Estream.Stream.Getc | branches/gpg2ecc/gnupg/common/estream.h:240-245 | The fast path and the slow path both deliver what a read of one byte delivers. |
| Estream.Stream.Putc | branches/gpg2ecc/gnupg/common/estream.h:247-252 | The fast path and the slow path both do what a write of that byte does, refusals and aborts included. |
| FlatFile.ReadBack | branches/gpg2ecc/gnupg/common/estream.c:1634-1687 | What is written is what is read back at that position. |
| FlatRuns.RunIsPlain | branches/gpg2ecc/gnupg/common/estream.c:1367-1687 | The stack of pushed back bytes cannot be seen in a run that pushes back nothing but what stands in front of the position: the reference is a byte array with one position. |
| FlatRuns.DeliveredIsHonest | branches/gpg2ecc/gnupg/common/estream.c:1427-1451 | Any number of the bytes a read delivered, the last one first, may be pushed back in such a run. |
| FlatRuns.AbortedWrite | branches/gpg2ecc/gnupg/common/estream.c:1048-1058 | One run that aborts: two bytes written behind a read through a buffer of one. |
| FlatRuns.LineFeedAborts | branches/gpg2ecc/gnupg/common/estream.c:1600-1631 | Through a line-buffered stream the byte 10 written behind a read aborts, and no other byte that fits does. |
| FlatRuns.PushbackOfTwenty | branches/gpg2ecc/gnupg/common/estream.c:1427-1451 | Of twenty bytes sixteen can be pushed back, and then no more. |
| FlatRuns.SeekGoes | branches/gpg2ecc/gnupg/common/estream.c:1453-1509 | Where a seek of the reference goes, for the three origins, and that one in front of the start changes nothing but the direction. |
| TrustStore.WriteSanitized | branches/gpg2ecc/gnupg/common/estream.c:3154-3223 | The sanitized text of a string without delimiters, octet by octet. |
| TrustText.NoControls | branches/gpg2ecc/gnupg/common/estream.c:3154-3223 | No control character is left in the sanitized text, and text without any is not changed. |
| TrustText.Escapes | branches/gpg2ecc/gnupg/common/estream.c:3154-3223 | The escapes are those of C, and the code in hexadecimal for the characters that have none. |
| RsaKeyCheck.DecryptsWhatItEncrypts | branches/gpg2ecc/gnupg/agent/protect-tool.c:556-637 | For distinct primes p and q and exponents that belong together modulo phi or modulo the least common multiple, (x^e)^d = x modulo n for every x, whether e is prime or not. |
| RsaKeyCheck.Check | branches/gpg2ecc/gnupg/agent/protect-tool.c:556-637 | For any factors above 1 and any positive e: whenever e is coprime to (p-1)(q-1) and p to q, and also whenever p, q and e are primes with p and q distinct, the check accepts if and only if n = p*q, e divides neither p-1 nor q-1, d is the inverse of e modulo phi or modulo the lcm and u is the inverse of p modulo q; acceptance always implies the first two; afterwards the factors are in ascending order, with u recomputed only if they were swapped. |
| RsaKeyCheck.ExponentError | branches/gpg2ecc/gnupg/agent/protect-tool.c:603-618 | For e coprime to phi the two-stage test of d reports an error exactly when d is the inverse of e for neither modulus. |
| RsaKeyCheck.ExponentModLcm | branches/gpg2ecc/gnupg/agent/protect-tool.c:603-618 | Either way of choosing d gives e*d = 1 modulo the least common multiple of p-1 and q-1. |
| RsaKeyCheck.DivisorHasNoInverse | branches/gpg2ecc/gnupg/agent/protect-tool.c:587-601 | What the tests of e protect: if e divides p-1 or q-1, no secret exponent belongs to it at all. |
| RsaKeyCheck.SmallKey | branches/gpg2ecc/gnupg/agent/protect-tool.c:556-637 | One key for which all of this holds: the primes 5 and 11 with the exponents 3 and 27. |
| RsaKeyCheck.Outcome | branches/gpg2ecc/gnupg/agent/protect-tool.c:587-632 | The tests together are exact for primes and for coprime numbers, whatever the comparisons with inverses that do not exist gave. |
| NumberTheory.CoprimeIsInvertible | branches/gpg2ecc/gnupg/agent/protect-tool.c:603-612 | The inverses that the check computes exist for coprime numbers. |
| RsaKeyCheck.LcmIsCommonMultiple | branches/gpg2ecc/gnupg/agent/protect-tool.c:610-616 | phi divided by the gcd is a common multiple of p-1 and q-1 and divides phi. |
| RsaKeyCheck.LcmDividesCommonMultiples | branches/gpg2ecc/gnupg/agent/protect-tool.c:610-616 | It divides every common multiple, so it is the least. |
| Base64Codec.ChecksumOfChunks | branches/gpg2ecc/gnupg/common/b64enc.c:210-218 | However the data is cut into write calls, the running checksum of a "PGP " armor is the bit-by-bit CRC-24 of section 6.1 of RFC 4880 of the concatenated data. |
| Crc24.TableIsRemainder | branches/gpg2ecc/gnupg/common/b64enc.c:40-136 | Every table entry, masked to 24 bits, is the remainder of its index shifted up by the polynomial, although entries carry bits above bit 23. |
| Crc24.TableIsGenerated | branches/gpg2ecc/gnupg/common/b64enc.c:40-136 | The table literal is what the generator in the comment produces. |
| Crc24.TableStepIsOctetStep | branches/gpg2ecc/gnupg/common/b64enc.c:210-218 | One table-driven step, whose value is not masked, equals eight single-bit steps. |
| Crc24.CrcAppend | branches/gpg2ecc/gnupg/common/b64enc.c:210-218 | Checksums of pieces chain to the checksum of the whole. |
| Crc24.Update | branches/gpg2ecc/gnupg/common/b64enc.c:210-218 | The loop over a buffer leaves the bit-by-bit checksum, masked to 24 bits. |
| Base64Codec.Encoder.constructor | branches/gpg2ecc/gnupg/common/b64enc.c:148-170 | A new encoder has written nothing and is in the state every later contract builds on. |
| Base64Codec.Encoder.Write | branches/gpg2ecc/gnupg/common/b64enc.c:173-250 | After any write calls the output is the header and the complete lines of all data so far, and the one or two left-over octets wait in the group buffer. |
| Base64Codec.Encoder.Finish | branches/gpg2ecc/gnupg/common/b64enc.c:254-350 | The finished text depends only on title and data: padded last group, line end, checksum line and footer included. |
| Base64Codec.EncodeChunks | branches/gpg2ecc/gnupg/common/b64enc.c:173-350 | Encoding in any pieces gives the text of the whole. |
| Base64.BodySnoc | branches/gpg2ecc/gnupg/common/b64enc.c:220-244 | One more octet either waits or completes its group, with the line feed behind the sixteenth. |
| Base64.AsciiBinary | branches/gpg2ecc/gnupg/common/b64enc.c:36-38 | The two alphabets are inverse on all 64 values. |
| ArmorText.AlphabetIs | branches/gpg2ecc/gnupg/common/b64enc.c:36-38 | Each of the 64 digits is written as its character of the alphabet of RFC 4648, letters, digits, plus and slash. |
| ArmorText.QuadIs | branches/gpg2ecc/gnupg/common/b64enc.c:220-244 | A quad is the four base-64 digits of its three octets taken as one number of 24 bits, most significant first. |
| ArmorText.LastQuadIs | branches/gpg2ecc/gnupg/common/b64enc.c:272-288 | An incomplete last group is filled up with zero bits, and the digits that these alone would give are equals signs. |
| ArmorText.LinesOfData | branches/gpg2ecc/gnupg/common/b64enc.c:232-307 | The counting of quads cuts the encoding into lines of 64 characters, the last one complete. |
| ArmorText.CheckValue | branches/gpg2ecc/gnupg/common/b64enc.c:78-136 | The checksum of the nine digits 1 to 9, from the initial value 0xB704CE, is the check value 0x21CF02 of this CRC-24. |
| ArmorText.ChecksumQuadIs | branches/gpg2ecc/gnupg/common/b64enc.c:309-325 | The checksum is written as the four base-64 digits of its 24 bits. |
| ArmorText.ArmoredText | branches/gpg2ecc/gnupg/common/b64enc.c:148-350 | With a title: the header line, the lines of 64 characters, and the end line, character by character; for a title that begins with PGP also the empty line and the line with the checksum from 0xB704CE on. |
| ArmorText.BareText | branches/gpg2ecc/gnupg/common/b64enc.c:148-350 | Without a title only those lines, with the empty title the encoding without line feeds. |
| ArmorRoundTrip.DecodeEncoded | branches/gpg2ecc/gnupg/common/b64dec.c:90-204 | Decoding an encoded text gives the data back and flags nothing as invalid, for all data, with and without header, with and without checksum line, for every title without a line feed. |
| Base64Codec.Transport | branches/gpg2ecc/gnupg/common/b64dec.c:90-204 | The same for every way of cutting the data for the encoder and every way of cutting the text for the decoder. |
| Base64Codec.DecoderState.constructor | branches/gpg2ecc/gnupg/common/b64dec.c:68-86 | The start state for both kinds of title. |
| Base64Codec.DecoderState.Feed | branches/gpg2ecc/gnupg/common/b64dec.c:104-195 | One turn of the ten-state switch: next state and emitted octet. |
| Base64Codec.DecoderState.Proc | branches/gpg2ecc/gnupg/common/b64dec.c:90-204 | Decoding in place leaves the decoded octets in front and everything behind the write position untouched, so no octet is overwritten before it is read; end of file is reported exactly after a stop. |
| Base64Codec.DecodeChunks | branches/gpg2ecc/gnupg/common/b64dec.c:90-204 | Decoding in any pieces gives what decoding the whole gives. |
| ArmorText.DecoderTakes | branches/gpg2ecc/gnupg/common/b64dec.c:104-195 | Inside the data: white space is skipped, a hyphen begins the end line, an equals sign ends the data, the 64 characters count as their digits, and everything else is invalid. |
| Base64.RunAppend | branches/gpg2ecc/gnupg/common/b64dec.c:90-204 | No state is lost between two calls. |
| CacheRuns.SafeRun | branches/gpg2ecc/gnupg/agent/cache.c:82-340 | In every run, from any safe state, each lock count is the number of outstanding handles and every item handed out is still listed with its secret. |
| CacheRuns.SafeStep | branches/gpg2ecc/gnupg/agent/cache.c:82-340 | No single call can take a pinned secret away or miscount the pins. |
| CacheRuns.HandleStaysGood | branches/gpg2ecc/gnupg/agent/cache.c:82-340 | After any calls, a handle not yet returned still finds its item with the secret it came with, even if its key was replaced, deleted or flushed. |
| CacheRuns.CacheIsAMap | branches/gpg2ecc/gnupg/agent/cache.c:82-340 | In every run that stores no key while an entry for it is pinned, all lookups answer as a map from keys to secrets with expiry does, and the list has at most one item per key; calls that store nothing are not restricted. |
| CacheExact.CacheIsAMapIff | branches/gpg2ecc/gnupg/agent/cache.c:82-340 | That condition is exact: a run keeps it if and only if the list has at most one item per key throughout, and if and only if every call of the run, with a deletion and a lookup of its key behind it, is answered as by the map. |
| CacheExact.OneSlotIffAllowed | branches/gpg2ecc/gnupg/agent/cache.c:199-265 | A single call from a state that represents a map leaves one item per key if and only if it does not store a key whose entry is pinned. |
| CacheExact.ProbeTells | branches/gpg2ecc/gnupg/agent/cache.c:199-320 | A single call and its probe are answered as by the map if and only if the call is allowed. |
| CacheExact.OneSlotThroughout | branches/gpg2ecc/gnupg/agent/cache.c:82-340 | The same for whole runs from any state that represents a map. |
| CacheRuns.RefinesRun | branches/gpg2ecc/gnupg/agent/cache.c:82-340 | From every state that represents a map, a run that keeps the condition refines the map; CacheExact has the converse. |
| CacheRuns.RefinesStep | branches/gpg2ecc/gnupg/agent/cache.c:82-340 | One call that keeps the condition is one call on the map; dropping idle slots cannot be seen. |
| CacheRuns.FreshHit | branches/gpg2ecc/gnupg/agent/cache.c:273-320 | A secret nobody held at the call is handed out only if, when the housekeeping of that call read the clock, it was within its last access plus its ttl and within its creation plus the maximal ttl. |
| CacheExact.StaleAfterStoringWhileLocked | branches/gpg2ecc/gnupg/agent/cache.c:199-320 | One run from the empty cache where the map claim fails: store, look up, store anew while the old entry is locked, delete, and the next lookup hands out the old secret. |
| CacheRuns.SafeStart | branches/gpg2ecc/gnupg/agent/cache.c:49 | The empty cache is a safe state. |
| CacheLifetimes.Lifetime | branches/gpg2ecc/gnupg/agent/cache.c:82-320 | Exactly when a stored secret is handed out, to the second: within the lifetime asked for, where 0 asks for the default of ssh or of all other modes, and within the largest lifetime of ssh or of all other modes. |
| CacheLifetimes.DefaultLifetimes | branches/gpg2ecc/gnupg/agent/cache.c:208-217 | With default lifetimes: handed out in their last second and not one second later, for ssh by the ssh default and for any other mode by the general one. |
| CacheLifetimes.UseRenews | branches/gpg2ecc/gnupg/agent/cache.c:273-320 | A use starts the lifetime anew, but not the largest lifetime, which counts from storing. |
| CacheLifetimes.IgnoredMode | branches/gpg2ecc/gnupg/agent/cache.c:219-220 | Nothing stored or asked for in mode ignore is answered. |
| CacheLifetimes.FlushForgets | branches/gpg2ecc/gnupg/agent/cache.c:163-189 | After a flush a secret in use is gone once it is given back, and one that nobody uses at once. |
| CacheLifetimes.EmptyItemGone | branches/gpg2ecc/gnupg/agent/cache.c:128-158 | An item without a secret is unlinked by the first housekeeping more than 1800 seconds after it was last touched; a locked one would be put off by 600 seconds. |
| CacheLifetimes.LockedHasSecret | branches/gpg2ecc/gnupg/agent/cache.c:128-158 | In no state that a run reaches is there a locked item without a secret, so the housekeeping never finds one. |
| CacheList.RunEvents | branches/gpg2ecc/gnupg/agent/cache.c:82-340 | Any sequence of calls on the real list of mutable items answers as the state machine of these theorems does and ends in the same slots. |
| CacheList.Cache.Housekeep | branches/gpg2ecc/gnupg/agent/cache.c:82-160 | The three passes over the list in place leave exactly the expired and swept list. |
| CacheList.Cache.FlushCache | branches/gpg2ecc/gnupg/agent/cache.c:163-189 | Only unlocked items lose their secrets; nothing is unlinked. |
| CacheList.Cache.PutCache | branches/gpg2ecc/gnupg/agent/cache.c:199-265 | Replace, delete or insert at the head after housekeeping, with the effective ttl by mode; nothing for a ttl of 0 or mode ignore. |
| CacheList.Cache.GetCache | branches/gpg2ecc/gnupg/agent/cache.c:273-320 | The first unlocked live item, else the first live one, is pinned, stamped and returned with its secret; otherwise nothing is. |
| CacheList.Cache.UnlockCacheEntry | branches/gpg2ecc/gnupg/agent/cache.c:323-340 | Exactly the item at that address loses one pin. |
| ProtectRoundTrip.UnprotectUndoesProtect | branches/gpg2ecc/gnupg/agent/protect.c:396-535 | Unprotecting a protected key with the same passphrase gives the original key octet for octet, with all lists behind its parameters, and the stored time; for all RSA, DSA and Elgamal keys, any values, salt, count and padding. |
| Protect.ProtectThenUnprotect | branches/gpg2ecc/gnupg/agent/protect.c:766-962 | The two procedures one after the other succeed and do that. |
| ProtectRoundTrip.MergedMic | branches/gpg2ecc/gnupg/agent/protect.c:190-238 | The MIC recomputed over the merged list, time stamp still inside, is the one computed over the pieces when the key was protected. |
| ProtectRoundTrip.ProtectIs | branches/gpg2ecc/gnupg/agent/protect.c:396-535 | A protected key has exactly the promised form, and octets behind the key are ignored. |
| ProtectRoundTrip.KeyPartsDecode | branches/gpg2ecc/gnupg/agent/protect.c:419-480 | The scan finds where the secret parameters, the hashed part and the key begin and end. |
| ProtectRoundTrip.BlockIs | branches/gpg2ecc/gnupg/agent/protect.c:284-345 | The encrypted block is the secret list and its hash with one to sixteen octets of padding, a multiple of the cipher block. |
| ProtectRoundTrip.DecryptedIs | branches/gpg2ecc/gnupg/agent/protect.c:539-607 | Decryption gives that block back and its length and structure are recognised despite the padding. |
| ProtectRoundTrip.CipherDecodes | branches/gpg2ecc/gnupg/agent/protect.c:866-923 | Salt, count, initialisation vector and ciphertext are read back as written. |
| ProtectRoundTrip.MergeIs | branches/gpg2ecc/gnupg/agent/protect.c:616-758 | Merging puts the secret parameters back where the protected list was and finds the offset and length of the time stamp. |
| ProtectRoundTrip.CutIsPlain | branches/gpg2ecc/gnupg/agent/protect.c:951-960 | Cutting that range out leaves the original key. |
| ProtectRoundTrip.TableLooksUp | branches/gpg2ecc/gnupg/agent/protect.c:48-57 | Each algorithm name finds its own table line. |
| ProtectText.ProtectedText | branches/gpg2ecc/gnupg/agent/protect.c:48-57 | The protected form of every RSA, DSA and Elgamal key, octet by octet and by the names of the parameters: n, e (p, q, g, y; p, g, y) in the clear, d, p, q, u (x; x) only in what is encrypted, with the hash over all of them and the time. |
| ProtectText.CountIs | branches/gpg2ecc/gnupg/agent/protect.c:902-908 | Counts below 256 are the octets of section 3.7.1.3 of RFC 4880, from 65536 for 96 on and doubling every sixteen; what stands for less than 65536 is refused. |
| ProtectText.WrongPassphrase | branches/gpg2ecc/gnupg/agent/protect.c:539-607 | With another passphrase a protected key is refused for its passphrase exactly if the decryption does not begin with a list that ends in its last block. |
| ProtectText.Refused | branches/gpg2ecc/gnupg/agent/protect.c:396-480 | Text that is no list, no private key, or of an unknown algorithm is refused, each with its own error. |
| MergeSize.MergedFits | branches/gpg2ecc/gnupg/agent/protect.c:635-743 | For every key text whose protected list is found and every decrypted text that was accepted, the merged list is no longer than the buffer allocated for it. |
| MergeSize.BugIffNoList | branches/gpg2ecc/gnupg/agent/protect.c:635-646 | The internal error of the merge is reported exactly for a key text that is not one balanced list. |
| MergeSize.KeyEnds | branches/gpg2ecc/gnupg/agent/protect.c:789-865 | The protected list begins behind the fixed beginning of the key, and leaving two lists from there ends where the key ends. |
| Sexp.SkipTwice | branches/gpg2ecc/gnupg/agent/protect.c:616-758 | Leaving a and then b lists is leaving a + b lists. |
| ProtectSpec.StampInside | branches/gpg2ecc/gnupg/agent/protect.c:714-743 | The range cut out never reaches beyond the key. |
| Protect.ReadKeyParts | branches/gpg2ecc/gnupg/agent/protect.c:419-480 | For every buffer: the positions found, or which error is reported. |
| Protect.DoEncryption | branches/gpg2ecc/gnupg/agent/protect.c:261-390 | The list printed with placeholders that are then overwritten is the promised one. |
| Protect.AgentProtect | branches/gpg2ecc/gnupg/agent/protect.c:396-535 | For every buffer: the protected key, or exactly the error of the first scan that fails. |
| Protect.ReadStamp | branches/gpg2ecc/gnupg/agent/protect.c:812-840 | For every buffer: the first protection time, or none. |
| Protect.ReadProtected | branches/gpg2ecc/gnupg/agent/protect.c:842-866 | For every buffer: where the protected list begins. |
| Protect.DecodeCount | branches/gpg2ecc/gnupg/agent/protect.c:902-908 | The count is taken as it is, or decoded from its one-octet form when it is below 256. |
| Protect.ReadCipher | branches/gpg2ecc/gnupg/agent/protect.c:866-923 | For every buffer: the encryption parameters or the error. |
| Protect.DoDecryption | branches/gpg2ecc/gnupg/agent/protect.c:539-607 | Accepted exactly if the ciphertext is whole blocks and its decryption starts with a list that ends within the last block; otherwise corrupted protection or bad passphrase. |
| Protect.MergeLists | branches/gpg2ecc/gnupg/agent/protect.c:616-758 | For every key and decrypted text: the merged list with its cut, or the error. |
| Protect.CalculateMic | branches/gpg2ecc/gnupg/agent/protect.c:190-238 | For every buffer: the hash of exactly the algorithm list. |
| Protect.AgentUnprotect | branches/gpg2ecc/gnupg/agent/protect.c:766-962 | For every buffer: the key and time, or exactly the error of the first step that fails; a wrong MIC is an error. |
| S2k.HashPassphrase | branches/gpg2ecc/gnupg/agent/protect.c:1000-1071 | Octet k of the key is octet k mod d of the digest of k div d zero octets followed, in mode 3, by the first max(count, length of salt and passphrase) octets of their endless repetition (sections 3.7.1.1 and 3.7.1.3 of RFC 4880); which inputs are refused is stated both ways. |
| S2k.FeedIterated | branches/gpg2ecc/gnupg/agent/protect.c:1032-1058 | The loop that feeds salt and passphrase writes exactly that material. |
| S2k.FeedRest | branches/gpg2ecc/gnupg/agent/protect.c:1050-1057 | The last round writes the beginning of salt and passphrase that is left of the count. |
| S2k.MaterialAt | branches/gpg2ecc/gnupg/agent/protect.c:1032-1058 | What is hashed, octet by octet: the passphrase alone, salt and passphrase once, or the two over and over up to the count and at least once. |
| ProtectKey.DerivedKeyIs | branches/gpg2ecc/gnupg/agent/protect.c:313-328 | The key of the cipher is the first sixteen octets of one hash over that repetition. |
| ProtectKey.PassphraseRoundTrip | branches/gpg2ecc/gnupg/agent/protect.c:313-345 | From the passphrase through the derived key and the cipher and back: unprotecting what was protected with the same passphrase gives the key back, for any hash with digests of 20 octets and any cipher that its decryption undoes under a 16-octet key. |
| ProtectKey.DeriveKey | branches/gpg2ecc/gnupg/agent/protect.c:313-328 | The key that is made from passphrase, salt and count is the first 16 octets of the iterated string-to-key stream, and no other. |
| ProtectKey.Encrypt | branches/gpg2ecc/gnupg/agent/protect.c:313-345 | Deriving the key and encrypting with it is the encryption the protection is modelled with. |
| ProtectKey.Decrypt | branches/gpg2ecc/gnupg/agent/protect.c:566-585 | Deriving the key and decrypting with it is the decryption the protection is modelled with. |
| Shadow.ShadowThenParse | branches/gpg2ecc/gnupg/agent/protect.c:1078-1320 | Serial number and id go through all four functions and come out again, the serial in upper case, and the shadowed key is the promised one. |
| Shadow.GetInfoIs | branches/gpg2ecc/gnupg/agent/protect.c:1192-1255 | The info put into a key is found again, with everything behind it, if and only if no parameter of the key is itself named "shadowed". |
| Shadow.ShadowedNameHides | branches/gpg2ecc/gnupg/agent/protect.c:1192-1255 | One valid key that hides its own shadow info. |
| Shadow.ParseInfoIs | branches/gpg2ecc/gnupg/agent/protect.c:1264-1320 | Info made from hex digits comes apart again if and only if there are two digits and an id; an odd last digit is dropped. |
| Shadow.ShadowKeyIs | branches/gpg2ecc/gnupg/agent/protect.c:1111-1188 | Every parameter of the public key and everything behind them is kept, for any list as info. |
| Shadow.PointInside | branches/gpg2ecc/gnupg/agent/protect.c:1111-1188 | The insertion point always lies inside the list, so the copied pieces fit. |
| Shadow.MakeShadowInfo | branches/gpg2ecc/gnupg/agent/protect.c:1078-1102 | The list of the decoded serial number and the id. |
| Shadow.MakeInfoText | branches/gpg2ecc/gnupg/agent/protect.c:1078-1102 | The info in characters: length and octets of the serial number, then those of the id. |
| Shadow.AgentShadowKey | branches/gpg2ecc/gnupg/agent/protect.c:1111-1188 | For all buffers: the spliced key or the error, and the result fits into the buffer that is allocated. |
| Shadow.AgentGetShadowInfo | branches/gpg2ecc/gnupg/agent/protect.c:1192-1255 | For all buffers: the position of the info or the error. |
| Shadow.ParseShadowInfo | branches/gpg2ecc/gnupg/agent/protect.c:1264-1320 | For all buffers: serial number and id or the error. |
| Sexp.NextToken | branches/gpg2ecc/gnupg/common/sexp-parse.h:27-41 | The scanner reads back the length of every non-empty token that is printed. |
| Sexp.SkipText | branches/gpg2ecc/gnupg/common/sexp-parse.h:49-83 | Skipping stops exactly where the open lists close, for every token sequence, whatever the tokens contain. |
| Sexp.Snext | branches/gpg2ecc/gnupg/common/sexp-parse.h:27-41 | For all input: the length, or 0 with the position unchanged. |
| Sexp.Sskip | branches/gpg2ecc/gnupg/common/sexp-parse.h:49-83 | For all input: the position behind the last closing parenthesis, or an error. |
| Sexp.Smatch | branches/gpg2ecc/gnupg/common/sexp-parse.h:90-99 | Advance on equality, otherwise stay. |
| Sexp.Smklen | branches/gpg2ecc/gnupg/common/sexp-parse.h:107-125 | The decimal number, built backwards, and a colon. |
| Sexp.DigitsOfDec | branches/gpg2ecc/gnupg/common/sexp-parse.h:27-41 | A printed decimal number reads as that number. |
| Sexp.CanonLenText | branches/gpg2ecc/gnupg/agent/protect.c:598-604 | The canonical length of a list is that of its text, whatever follows. |
| Sexp.ListLength | branches/gpg2ecc/gnupg/agent/protect.c:598-604 | The length of the first balanced list, 0 if there is none. |
| P12.BuildThenParse | branches/gpg2ecc/gnupg/agent/minip12.c:1277-1452 | For every certificate, every key of eight positive numbers and every password the builder accepts, with a file under 65536 octets: parsing what was built returns the same numbers in order and hands over exactly the certificate, whatever other password encodings could be tried. |
| P12RoundTrip.ParseUndoesBuild | branches/gpg2ecc/gnupg/agent/minip12.c:1277-1452 | The same about the promised file layout and the reader function, for keys of up to nine numbers. |
| P12Build.P12Build | branches/gpg2ecc/gnupg/agent/minip12.c:2143-2279 | With objects under 65536 octets a file comes out if and only if the key has eight parameters that fit and the password is not too long, and it is the promised layout, MAC included. |
| P12Parse.P12Parse | branches/gpg2ecc/gnupg/agent/minip12.c:1277-1452 | For every octet sequence: the key or none, and the certificates handed over before any error, are what the reader function says. |
| P12RoundTrip.BagDataDecodes | branches/gpg2ecc/gnupg/agent/minip12.c:1038-1268 | Salt, iterations and ciphertext of a key bag are found and the decrypted key is read, whatever follows. |
| P12RoundTrip.BagEncryptedDataDecodes | branches/gpg2ecc/gnupg/agent/minip12.c:607-1008 | The certificate comes back from its encrypted bag. |
| P12RoundTrip.PlainBagsDecode | branches/gpg2ecc/gnupg/agent/minip12.c:752-975 | The certificate is found in the decrypted sequence and the loop stops at attributes and padding. |
| P12RoundTrip.BagsStep | branches/gpg2ecc/gnupg/agent/minip12.c:1345-1426 | One bag is consumed with its octets counted off, and the loop goes on behind it. |
| P12RoundTrip.KeyInfoDecodes | branches/gpg2ecc/gnupg/agent/minip12.c:1175-1247 | The private key object yields its numbers in order. |
| P12RoundTrip.KeyParamsDecode | branches/gpg2ecc/gnupg/agent/minip12.c:1218-1247 | A positive number is never taken for the version, and none is lost. |
| P12RoundTrip.AlgorithmIsTlv | branches/gpg2ecc/gnupg/agent/minip12.c:112-124 | The algorithm templates are well-formed objects around any salt. |
| P12RoundTrip.PbeParamsDecode | branches/gpg2ecc/gnupg/agent/minip12.c:1128-1151 | Salt and iteration count are read back. |
| P12RoundTrip.PlaintextFirst | branches/gpg2ecc/gnupg/agent/minip12.c:495-575 | A plausible first decryption is taken whatever else could be tried. |
| P12Parse.CramOctetString | branches/gpg2ecc/gnupg/agent/minip12.c:275-319 | For all input: the joined chunks up to the end tag, or failure. |
| P12Parse.DecryptBlock | branches/gpg2ecc/gnupg/agent/minip12.c:495-575 | The first plausible decryption, else the last attempt. |
| P12Parse.ParseBagData | branches/gpg2ecc/gnupg/agent/minip12.c:1038-1268 | For all input: the key and how much was consumed, or failure at the first mismatch. |
| P12Parse.ParseBagEncryptedData | branches/gpg2ecc/gnupg/agent/minip12.c:607-1008 | For all input: certificates, key and how much was consumed, or failure with the certificates found until then. |
| P12Parse.ReadPlainBags | branches/gpg2ecc/gnupg/agent/minip12.c:752-975 | For all input: the loop over certificate, CRL and key bags. |
| P12Parse.ReadOneBag | branches/gpg2ecc/gnupg/agent/minip12.c:776-946 | For all input: what one bag yields. |
| P12Parse.ReadNextBag | branches/gpg2ecc/gnupg/agent/minip12.c:948-974 | For all input: attributes are skipped, padding ends the loop. |
| P12Parse.ReadKeyInfo | branches/gpg2ecc/gnupg/agent/minip12.c:1175-1247 | For all input: the key parameters or failure. |
| P12Parse.ReadPbeParams | branches/gpg2ecc/gnupg/agent/minip12.c:1128-1151 | For all input: salt of 8 to 20 octets and a 32-bit iteration count. |
| P12Parse.ReadIterations | branches/gpg2ecc/gnupg/agent/minip12.c:1146-1151 | The count wraps at 32 bits. |
| P12Parse.ReadCiphertext | branches/gpg2ecc/gnupg/agent/minip12.c:713-735 | For all input: the ciphertext, also when it comes in chunks. |
| P12Parse.FindBags | branches/gpg2ecc/gnupg/agent/minip12.c:1292-1342 | For all input: the sequence of bags inside the outer object. |
| P12Parse.ReadBagStep | branches/gpg2ecc/gnupg/agent/minip12.c:1365-1426 | For all input: the branch taken for one bag and what is left of it. |
| P12Build.KeySequenceSizes | branches/gpg2ecc/gnupg/agent/minip12.c:1683-1726 | The size pass accepts exactly eight parameters below the limit, and its nested lengths are those of the contents. |
| P12Build.BuildKeySequence | branches/gpg2ecc/gnupg/agent/minip12.c:1674-1791 | A result exactly in that case: the key object and padding to a multiple of eight. |
| P12Build.Pad | branches/gpg2ecc/gnupg/agent/minip12.c:1784-1787 | Each pad octet holds the number of pad octets. |
| P12Build.KeyBagSizes | branches/gpg2ecc/gnupg/agent/minip12.c:1804-1847 | For contents of any size: the computed size is that of the written object if and only if the contents stay below 65536 octets, and else too small; below that, every nested length is that of what is written inside it. |
| P12Build.BuildKeyBag | branches/gpg2ecc/gnupg/agent/minip12.c:1795-1921 | The written object is the promised one, with attributes exactly if there is a hash. |
| P12Build.CertBagSizes | branches/gpg2ecc/gnupg/agent/minip12.c:1932-1964 | The same for the certificate bag. |
| P12Build.BuildCertBag | branches/gpg2ecc/gnupg/agent/minip12.c:1924-2020 | The written object is the promised one. |
| P12Build.CertSequenceSizes | branches/gpg2ecc/gnupg/agent/minip12.c:2035-2069 | The same for the certificate sequence, for certificates of any size. |
| P12Build.BuildCertSequence | branches/gpg2ecc/gnupg/agent/minip12.c:2023-2136 | The written object is the promised one, padded to a multiple of eight. |
| P12Build.BuildAttributes | branches/gpg2ecc/gnupg/agent/minip12.c:1900-1911 | Friendly name with the key id, and the local key id. |
| P12Build.FinalSizes | branches/gpg2ecc/gnupg/agent/minip12.c:1520-1560 | The same for the outer object, for bags of any size. |
| P12Standard.FilePassesCheck | branches/gpg2ecc/gnupg/agent/minip12.c:1503-1647 | Every file that is built passes the integrity check of section 5 of RFC 7292, by a reader that finds digest, salt and iterations in the file. |
| P12Standard.MacDataIsStandard | branches/gpg2ecc/gnupg/agent/minip12.c:126-135 | The MAC template with digest and salt put in is the MacData object of RFC 7292: SHA-1 with NULL parameters, digest, salt and 2048 iterations. |
| P12Standard.AttributesAreStandard | branches/gpg2ecc/gnupg/agent/minip12.c:137-152 | The attribute template with key id and hash is a SET of friendly name, the text GnuPG exported certificate and the key id in 16-bit characters, and local key id. |
| P12Standard.Identifiers | branches/gpg2ecc/gnupg/agent/minip12.c:86-109 | Every object identifier is the encoding of the arcs that the PKCS standards assign. |
| P12Standard.AttributeIdentifiers | branches/gpg2ecc/gnupg/agent/minip12.c:137-152 | The two attributes are those of PKCS #9. |
| P12Standard.HeaderIsStandard | branches/gpg2ecc/gnupg/agent/minip12.c:1456-1497 | Identifier octets and lengths are those of X.690, in the shortest form. |
| P12Standard.PaddingIsStandard | branches/gpg2ecc/gnupg/agent/minip12.c:1784-1787 | Padding fills the last block of eight or adds one, and each pad octet is their number. |
| P12Standard.FieldsFit | branches/gpg2ecc/gnupg/agent/minip12.c:176-252 | Whatever is read, tag and length are numbers of 64 bits, and the length is within what is left. |
| P12Standard.SpecialLengths | branches/gpg2ecc/gnupg/agent/minip12.c:176-252 | The length octet 0x80 begins an object without a length and 0xff is refused, as in section 8.1.3 of X.690. |
| P12Build.TlvSized | branches/gpg2ecc/gnupg/agent/minip12.c:1456-1497 | One object of the size pass: an exact length stays exact if the contents are below the limit, and from an object that is too large on the computed size stays behind. |
| P12Build.CreateFinal | branches/gpg2ecc/gnupg/agent/minip12.c:1503-1647 | Fails exactly when no MAC key can be derived; the octets that are MACed are exactly the contents of the octet string (RFC 7292 section 5.1). |
| Der.HeaderDecodes | branches/gpg2ecc/gnupg/agent/minip12.c:1456-1497 | A stored tag and length is parsed back, and what follows it is untouched (X.690 section 8.1.3). |
| Der.TlvDecodes | branches/gpg2ecc/gnupg/agent/minip12.c:176-252 | The same for a complete object. |
| Der.ParseTag | branches/gpg2ecc/gnupg/agent/minip12.c:176-252 | For all input: class, tag, length and header size, or failure; the length never exceeds what is left. |
| Der.MpiRoundTrip | branches/gpg2ecc/gnupg/agent/minip12.c:1757-1780 | Printing a number in standard format and scanning it gives the number, and a positive one is not the single zero octet the reader skips. |
| Der.Writer.Open | branches/gpg2ecc/gnupg/agent/minip12.c:1475-1497 | Storing a header moves the write position by exactly the computed header length. |
| Trustlist.AppendedAnswers | branches/gpg2ecc/gnupg/agent/trustlist.c:721-734 | After appending to a list that reads without error and lacks the fingerprint, the table has exactly one item more, that fingerprint is answered as the user chose and every other one as before. |
| Trustlist.ReadAppended | branches/gpg2ecc/gnupg/agent/trustlist.c:113-306 | Reading a text with the appended lines adds exactly one item if the flag is one the reader knows, and otherwise reports an error and adds nothing. |
| Trustlist.FlagCRejected | branches/gpg2ecc/gnupg/agent/trustlist.c:545-550 | One list that reads with an error: the appended line with the documented flag C. |
| Trustlist.ReadBoth | branches/gpg2ecc/gnupg/agent/trustlist.c:113-306 | Text behind complete lines is read in the state those lines leave. |
| Trustlist.NoErrorTerminated | branches/gpg2ecc/gnupg/agent/trustlist.c:140-155 | A list that reads without error ends in a complete line, so appended text starts on its own line. |
| Trustlist.CommentRead | branches/gpg2ecc/gnupg/agent/trustlist.c:722-733 | A name spread over comment lines within the line limit reads as nothing. |
| Trustlist.EntryDecodes | branches/gpg2ecc/gnupg/agent/trustlist.c:217-290 | The written entry is parsed back to fingerprint, flag and disabled bit, or rejected for an unknown flag. |
| Trustlist.LookupAppended | branches/gpg2ecc/gnupg/agent/trustlist.c:381-433 | The first item with a fingerprint decides, so an appended item matters only if it is the first. |
| Trustlist.HeaderKeepsTable | branches/gpg2ecc/gnupg/agent/trustlist.c:693-709 | A new file that has only the header stands for the same table as no file. |
| TrustText.EntryRead | branches/gpg2ecc/gnupg/agent/trustlist.c:217-290 | The line of a root certificate in characters: the mark for one that is not trusted, twenty octets in hexadecimal with colons, P, S or * for its use, and the words relax and cm wherever they stand; any other use is bad. |
| TrustText.WordsRead | branches/gpg2ecc/gnupg/agent/trustlist.c:266-289 | The words relax and cm are taken in any order and number, all others are ignored. |
| TrustText.AssignmentRead | branches/gpg2ecc/gnupg/agent/trustlist.c:272-276 | An assignment is reported and the line is read on behind it. |
| TrustText.ColonsAt | branches/gpg2ecc/gnupg/agent/trustlist.c:482-504 | With colons in, every third character is one and the others are the digits in order. |
| TrustStore.MarkThenAsk | branches/gpg2ecc/gnupg/agent/trustlist.c:551-749 | Marking and asking again gives the user's answer for the key and the old answer for every other key. |
| TrustStore.Store.MarkTrusted | branches/gpg2ecc/gnupg/agent/trustlist.c:551-749 | When the file changes, what is appended, which error is reported, and which table later questions use, for all answers of the user and all states of the file. |
| TrustStore.Store.IsTrusted | branches/gpg2ecc/gnupg/agent/trustlist.c:381-433 | The answer of the table in use, read first if it is not cached; asking does not change later answers. |
| TrustStore.Store.ReadTrustFiles | branches/gpg2ecc/gnupg/agent/trustlist.c:310-374 | The table is replaced exactly if the list reads without error. |
| TrustStore.ReadTrustFile | branches/gpg2ecc/gnupg/agent/trustlist.c:113-306 | For every text: the table and whether there was an error, over-long and unterminated lines and include-default included. |
| TrustStore.ReadEntry | branches/gpg2ecc/gnupg/agent/trustlist.c:217-290 | For every line: fingerprint, disabled bit and flags, or why it is bad. |
| TrustStore.ReadFlags | branches/gpg2ecc/gnupg/agent/trustlist.c:266-289 | For every tail of a line: all flags, unknown ones ignored, assignments reported. |
| TrustStore.GetLine | branches/gpg2ecc/gnupg/agent/trustlist.c:140-155 | A line is accepted exactly if it is complete and within the buffer; otherwise the rest of it is dropped. |
| TrustStore.InsertColons | branches/gpg2ecc/gnupg/agent/trustlist.c:482-504 | A colon in front of every second character but the first. |
| TrustStore.ReformatName | branches/gpg2ecc/gnupg/agent/trustlist.c:512-542 | The slashes of a name replaced; names that do not start with one stay. |
| Convert.HexRoundTrip | branches/gpg2ecc/gnupg/common/convert.c:104-149 | Hex digits to octets and back changes only their case and drops an odd last digit. |
| Convert.Bin2Hex | branches/gpg2ecc/gnupg/common/convert.c:104-149 | Two upper-case digits per octet. |
| Convert.HexColon2Bin | branches/gpg2ecc/gnupg/common/convert.c:68-100 | For all input: exactly the wanted number of octets, with colons everywhere or nowhere, ended by the end or a space; otherwise failure. |
| Trustlist.FprDecodes | branches/gpg2ecc/gnupg/common/convert.c:68-100 | A fingerprint written with colons reads as its octets, up to the blank behind it. |
| TrustText.FingerprintRead | branches/gpg2ecc/gnupg/common/convert.c:68-100 | Forty digits with colons read as their twenty octets when white space or the end follows. |
| TrustText.DigitIs | branches/gpg2ecc/gnupg/common/convert.c:68-149 | The value of a hexadecimal digit is its place in the row of digits, in either case, and octets are printed in upper case. |
| TrustText.OctetOfPair | branches/gpg2ecc/gnupg/common/convert.c:104-149 | Each pair of digits is one octet, the first digit the more significant one. |
| Scd.RunCalls | branches/gpg2ecc/gnupg/agent/call-scd.c:218-583 | In every state reachable by connecting, starting, unlocking, resetting and aliveness checks, whatever the outside answers: no two connections share a context, none has a released one, a reusable primary context has no owner and any other primary context exactly one, the list holds every live record once, and no context is lost. |
| Scd.Daemon.Start | branches/gpg2ecc/gnupg/agent/call-scd.c:218-431 | Which outcome for which state and environment, which context the connection then has, and its lock count; the state stays valid and no context leaks on failure. |
| Scd.Daemon.Obtain | branches/gpg2ecc/gnupg/agent/call-scd.c:268-428 | The waiting primary context is reused, else a new one is made, which becomes primary if there was none; on failure exactly the new one is released. |
| Scd.Daemon.FoundIff | branches/gpg2ecc/gnupg/agent/call-scd.c:268-428 | Exactly when each outcome of finding a context is reported. |
| Scd.Daemon.Unlock | branches/gpg2ecc/gnupg/agent/call-scd.c:176-200 | The lock count returns to 0 and anything but 1 before is an error. |
| Scd.Daemon.CheckAliveness | branches/gpg2ecc/gnupg/agent/call-scd.c:445-525 | When the daemon died, every connection loses its context and all of them are released, the primary one once; otherwise nothing changes. |
| Scd.Daemon.Reset | branches/gpg2ecc/gnupg/agent/call-scd.c:530-583 | A primary context waits for reuse, any other is released, and exactly this record is unlinked. |
| Scd.LockedForGood | branches/gpg2ecc/gnupg/agent/call-scd.c:268-330 | One connection that stays locked: after a mutex that cannot be had, every later start fails. |
| PrintfArgs.ReachedIffBijective | branches/gpg2ecc/gnupg/common/estream-printf.c:1410-1530 | For every complete format, unknown conversions included: without given positions formatting is reached if and only if every conversion is recognised; with positions if and only if those of recognised values, widths and precisions are a bijection onto 1..n and each unknown conversion comes before the slot that has its position. |
| PrintfArgs.MatchIffRecognised | branches/gpg2ecc/gnupg/common/estream-printf.c:1319-1355 | Once formatting is reached, the assertions about positions and types all hold if and only if every conversion is recognised; otherwise only the type of an unknown one is wrong. |
| PrintfArgs.UnknownConversionMismatch | branches/gpg2ecc/gnupg/common/estream-printf.c:1410-1530 | One format where an assertion fails: its parse, the table that passes all checks, and the conversion whose type does not match. |
| PrintfArgs.TableIffBijective | branches/gpg2ecc/gnupg/common/estream-printf.c:1499-1531 | With a type for every slot the table can be built and read exactly if the positions are a bijection. |
| PrintfArgs.TableIffTypedBijective | branches/gpg2ecc/gnupg/common/estream-printf.c:1499-1531 | For any slots, exactly if the typed ones are a bijection and every other one comes before the typed one at its position. |
| PrintfArgs.PlaceAllSlots | branches/gpg2ecc/gnupg/common/estream-printf.c:1502-1525 | Placing any slots succeeds exactly if all places are free and none is wanted again after a typed slot took it; then exactly the typed slots are there, with their types, and nothing else changed. |
| PrintfArgs.FillAllIs | branches/gpg2ecc/gnupg/common/estream-printf.c:1453-1465 | Made-up positions are consecutive in the order in which arguments are consumed. |
| PrintfArgs.FewSlots | branches/gpg2ecc/gnupg/common/estream-printf.c:1479-1483 | A format cannot use as many places as it has characters, so the bound check never refuses made-up positions. |
| Printf.ScanAgrees | branches/gpg2ecc/gnupg/common/estream-printf.c:1278-1400 | The second scan of the format, by recorded lengths, stops at the same places as the first. |
| PrintfParse.ParseFormat | branches/gpg2ecc/gnupg/common/estream-printf.c:386-643 | For every format: the conversions in order, or the error. |
| PrintfParse.SpecSuffix | branches/gpg2ecc/gnupg/common/estream-printf.c:386-643 | The recorded length of a conversion is the number of characters it takes. |
| PrintfParse.RecognisedTyped | branches/gpg2ecc/gnupg/common/estream-printf.c:288-373 | A recognised conversion always has a type that can be read. |
| PrintfSpell.SpellRead | branches/gpg2ecc/gnupg/common/estream-printf.c:386-643 | Writing a conversion and parsing it are inverse: for every choice of position, flags, width, precision, modifier and conversion, written with the characters of ISO C, the parser gives exactly that choice, whatever follows. |
| PrintfSpell.Synonyms | branches/gpg2ecc/gnupg/common/estream-printf.c:566-590 | The letters i, C and S stand for d, lc and ls. |
| PrintfResult.UnsignedPrinted | branches/gpg2ecc/gnupg/common/estream-printf.c:782-977 | From format to output: the formats of the four unsigned conversions print every unsigned int as its numeral in base 8, 10 and 16, each with its own digits and without leading zeros. |
| PrintfResult.SignedPrinted | branches/gpg2ecc/gnupg/common/estream-printf.c:782-977 | The two signed ones print a minus sign for negative numbers and the decimal numeral. |
| PrintfResult.IntegerLaidOut | branches/gpg2ecc/gnupg/common/estream-printf.c:782-977 | Every integer conversion with any flags, width, precision and modifier: blanks, sign, prefix, zeros and digits in their places, except for the two cases that PrintfInteger.LayoutLength and IntegerTextIsLayout single out. |
| PrintfResult.StarsAreNumbers | branches/gpg2ecc/gnupg/common/estream-printf.c:1410-1552 | Width and precision given as arguments print what the same numbers written into the format print, and are taken in front of the value, the width first. |
| PrintfResult.ArgumentRange | branches/gpg2ecc/gnupg/common/estream-printf.c:288-373 | Which argument each integer conversion reads: the integer type of its modifier, signed or not by its letter. |
| PrintfResult.StoredReduced | branches/gpg2ecc/gnupg/common/estream-printf.c:1223-1267 | The number of characters so far is stored reduced to the width that the modifier names. |
| PrintfResult.StringPrinted | branches/gpg2ecc/gnupg/common/estream-printf.c:1131-1174 | From format to output: a string is cut to the precision and padded to the width, and a missing one is the text (null). |
| PrintfResult.CharPrinted | branches/gpg2ecc/gnupg/common/estream-printf.c:1111-1127 | A character is printed as itself. |
| PrintfResult.PointerPrinted | branches/gpg2ecc/gnupg/common/estream-printf.c:1178-1219 | A pointer is its hexadecimal numeral, filled up to sixteen digits, behind 0x. |
| PrintfResult.MessagePrinted | branches/gpg2ecc/gnupg/common/estream-printf.c:1353-1389 | The message for the current error takes no argument. |
| PrintfResult.PlainPrinted | branches/gpg2ecc/gnupg/common/estream-printf.c:1278-1400 | Text without a percent sign is printed as it is. |
| PrintfResult.PercentPrinted | branches/gpg2ecc/gnupg/common/estream-printf.c:1278-1400 | Two percent signs print one. |
| PrintfResult.OneConversion | branches/gpg2ecc/gnupg/common/estream-printf.c:1410-1552 | A format that is one conversion prints what that conversion makes of its argument, from the parse through positions and types to the output. |
| PrintfInteger.IntegerTextIsLayout | branches/gpg2ecc/gnupg/common/estream-printf.c:855-976 | For every width and precision an int can hold: the layout computed with signed and unsigned comparisons that see negative widths as huge is the one of the standard (padding, sign, prefix, zeros, digits, padding) if and only if the precision does not exceed width less sign and prefix by more than 2^31. |
| PrintfInteger.LayoutLength | branches/gpg2ecc/gnupg/common/estream-printf.c:855-976 | The length is max(width, sign and prefix + max(precision, digits)) if and only if it is not an alternate hexadecimal zero with precision 0 in a width that has room beyond the sign. |
| PrintfInteger.PaddingWraps | branches/gpg2ecc/gnupg/common/estream-printf.c:928-936 | One conversion where it is not: width 0, sign and prefix, and the largest precision. |
| PrintfInteger.BareZero | branches/gpg2ecc/gnupg/common/estream-printf.c:866-867 | One conversion whose prefix is not counted: seven characters in a field of five. |
| PrintfInteger.NumberReadsBack | branches/gpg2ecc/gnupg/common/estream-printf.c:864-917 | The digits read back in their base give the value; with grouping, after removing one separator every three digits. |
| PrintfInteger.NumberFits | branches/gpg2ecc/gnupg/common/estream-printf.c:864-917 | Digits and separators of any 64-bit value fit the buffer of 100 characters. |
| PrintfInteger.GroupedDigits | branches/gpg2ecc/gnupg/common/estream-printf.c:868-891 | Removing the separators leaves the digits. |
| PrintfText.BytesSoFarStored | branches/gpg2ecc/gnupg/common/estream-printf.c:1223-1267 | Every bytes-so-far conversion stores the length of all output before it, in the width of its target. |
| PrintfText.StoredExact | branches/gpg2ecc/gnupg/common/estream-printf.c:1223-1267 | What is stored is that length itself whenever the target can hold it. |
| PrintfText.RenderSplit | branches/gpg2ecc/gnupg/common/estream-printf.c:1278-1400 | Output goes on behind the pieces that are done; the text of a format is that of its parts. |
| Printf.DoFormat | branches/gpg2ecc/gnupg/common/estream-printf.c:1278-1400 | For every prepared format and fitting values: success, failure or failed assertion, output, stores and byte count are those of the text function. |
| Printf.FormatNext | branches/gpg2ecc/gnupg/common/estream-printf.c:1319-1389 | The assertion about the type of the value fails exactly for an unknown conversion; otherwise the conversion is printed with its stars applied. |
| PrintfText.AbortedOnlyByUnknown | branches/gpg2ecc/gnupg/common/estream-printf.c:1278-1552 | The engine aborts only on a format with an unknown conversion whose positions pass the checks, and such a format is never formatted to its end. |
| Printf.FormatOne | branches/gpg2ecc/gnupg/common/estream-printf.c:1353-1389 | Each conversion prints and stores what it should, for all values. |
| Printf.PrInteger | branches/gpg2ecc/gnupg/common/estream-printf.c:782-977 | The parts that are put out one by one are the integer text, and the byte count grows by its length. |
| Printf.BuildDecimal | branches/gpg2ecc/gnupg/common/estream-printf.c:868-891 | Digits with separators, built backwards. |
| Printf.PrString | branches/gpg2ecc/gnupg/common/estream-printf.c:1131-1174 | Precision cuts, width pads left or right, a missing string prints its placeholder. |
| Printf.PrPointer | branches/gpg2ecc/gnupg/common/estream-printf.c:1178-1219 | The prefix and sixteen hexadecimal digits. |
| Printf.PadOut | branches/gpg2ecc/gnupg/common/estream-printf.c:756-776 | Chunks of 32 add up to the wanted number of characters. |
| Printf.Sink.FixedOut | branches/gpg2ecc/gnupg/common/estream-printf.c:1617-1641 | What does not fit is counted but not stored; the buffer holds a prefix of everything written. |
| Printf.Sink.DynamicOut | branches/gpg2ecc/gnupg/common/estream-printf.c:1696-1729 | The buffer grows so that everything written is kept. |
| PrintfEntry.BuildTable | branches/gpg2ecc/gnupg/common/estream-printf.c:1502-1525 | The loops over the conversions build the table or refuse as the placing function says. |
| PrintfEntry.ReadValues | branches/gpg2ecc/gnupg/common/estream-printf.c:649-750 | Every place is read once and in order, or the call fails for a missing type. |
| PrintfEntry.EstreamFormat | branches/gpg2ecc/gnupg/common/estream-printf.c:1410-1552 | For every complete format and values of the types that are read: the output, the stores and how it ends, a failed assertion at an unknown conversion included. |
| PrintfEntry.VSnPrintf | branches/gpg2ecc/gnupg/common/estream-printf.c:1645-1667 | The result is the length of the whole text, the buffer holds its first size-1 characters and a NUL, and the call aborts exactly if formatting does. |
| PrintfEntry.VAsPrintf | branches/gpg2ecc/gnupg/common/estream-printf.c:1735-1770 | The new buffer holds the whole text and a NUL, its length is returned, no buffer on failure, and the call aborts exactly if formatting does. |
| PrintfEntry.BothSinks | branches/gpg2ecc/gnupg/common/estream-printf.c:1645-1770 | Both entry points return the same number and abort together for the same format and values, and the fixed buffer holds the beginning of the other. |

## Left out

Findings about the code, where a natural claim holds only under a condition. Each has its exact condition and one instance where it fails:

- A stream write that switches from reading and needs a flush aborts on an assertion (estream.c:1058): `Estream.Stream.Writen`, `FlatRuns.AbortedWrite`.
- Storing a passphrase while an older entry for its key is locked can bring back the older one: `CacheExact.CacheIsAMapIff`, `CacheExact.StaleAfterStoringWhileLocked`; pin safety is proved for this case too.
- The documentation of agent_marktrusted (trustlist.c:545-550) offers the flag 'C', which the reader rejects: `Trustlist.ReadAppended`, `Trustlist.FlagCRejected`.
- A public key parameter named "shadowed" hides the shadow info: `Shadow.GetInfoIs`, `Shadow.ShadowedNameHides`.
- An unknown printf conversion defeats the check of positional arguments: `PrintfArgs.MatchIffRecognised`, `PrintfArgs.UnknownConversionMismatch`.
- The prefix of an alternate hexadecimal zero with precision 0 is printed but not counted: `PrintfInteger.LayoutLength`, `PrintfInteger.BareZero`.
- The count of an integer conversion's padding can fall below the range of int: `PrintfInteger.IntegerTextIsLayout`, `PrintfInteger.PaddingWraps`.
- A mutex that cannot be acquired leaves a connection of the smartcard daemon marked as locked: `Scd.Daemon.Start`, `Scd.LockedForGood`.
- The size pass of four PKCS#12 builders is too small exactly for contents of 65536 octets and more, because they do not check the size function's 0: `P12Build.KeyBagSizes` and the other three.

Not modelled, or modelled with a restriction:

- P12Build.P12Build: files whose objects reach 65536 octets are left out of this and of the write passes (BuildKeyBag, BuildCertBag, BuildCertSequence, CreateFinal), since there the write pass no longer matches what the size pass counted; `P12Build.KeyBagSizes`, `CertBagSizes`, `CertSequenceSizes` and `FinalSizes` say exactly when.
- P12RoundTrip.ParseUndoesBuild: the branches of p12_parse that skip an unknown or a second data bag are part of the reader function as coded, but written files do not reach them.
- P12Parse.DecryptBlock: the conversions of the password to other character sets are a list of further passwords; the conversion itself is left out.
- PrintfInteger.IntegerTextIsLayout: the one subtraction of ints that overflows, behind a left-justified field of width 0 with the largest precision, sign and prefix, is taken without wrapping; the result is not the layout either way.
- PrintfEntry.EstreamFormat: formats that end within a conversion, which the source reads past, are excluded, as is memory exhaustion; int overflow while a width or position is read is not modelled.
- Printf.FormatOne: floating-point text is a function of the environment, because the source hands it to sprintf; the hh modifiers fail in formatting as in the code.
- Trustlist.ReadAppended: the appended comment lines are within the reader's line limit and the certificate's flag is no blank; the text of the comments in a new file is a parameter.
- TrustStore.Store.MarkTrusted: errors in opening or writing the file and changes by others during the call are left out, as are the relax and cm status lines, the listing of all entries, and a home directory that is the system's.
- Sexp.Snext: a length is a number without bound; a token that claims more octets than the buffer has ends at the buffer's end, where the code would read on; strtoul's blanks and signs in the count of a protected key are not accepted.
- CacheRuns.CacheIsAMap: times are unbounded integers, so the end of the time range is not modelled.
- CacheRuns.FreshHit: the clock is read once for the housekeeping and again for the stamp; lateness is as of the first reading.
- Estream.Stream.RunAll: backend errors, append mode, flushing while reading, changing the strategy in mid-run and the memory backend are left out; a buffered stream has a buffer of at least one byte.
- Base64Codec.DecoderState.constructor: a decoder title other than none or the empty one is refused by the source as not implemented; write errors of the encoder's stream are left out.
- RsaKeyCheck.Check: a factor or exponent that is 0 or a factor of 1 makes the source divide by zero or take inverses modulo 0, so factors are above 1 and the exponent is positive; nothing is said of the comparison with an inverse that does not exist.
- Scd.RunCalls: each call is one step, as the source's mutex and cooperative threads intend; the Assuan transport is left out.
- Lengths of buffers, offsets and counts outside printf are unbounded integers; their overflow is not modelled.
- String-to-key of PKCS#12, ciphers, digests, multi-precision arithmetic, secure memory and random numbers are abstract or parameters.
- Sockets, processes, dialogs, translation, logging and the remaining commands of the agent are not part of this model.
