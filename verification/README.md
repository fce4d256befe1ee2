# A verified model of the Ascon link and cryptographic library

The project models, in Dafny, three layers of the repository and proves what they promise.

* **The AsconSecure link** (`ascon-lora/src`). The sender is a step machine with any number of tasks,
  non-volatile storage whose writes may fail before or after taking effect and whose entries may get
  lost, and power losses between any two storage accesses. The receiver is a step machine with
  restarts, repeated and conflicting registrations, failing reads and writes and lost entries. `Link`
  joins both with a network that loses, repeats, reorders and injects. `Sender` and `Receiver` are the
  classes as they are called, proved against the machines and, over one memory with every overlap of the
  buffers, against the wire format.
* **The permutation and its backends** (`src/core`). The textbook rounds of section 2.6 of the Ascon
  v1.2 submission (`Rounds.dfy`) are refined by the 64-bit form and by the bit-sliced 32-bit form; the
  permutation is shown to be a bijection; every byte operation on the two word-based states is shown to
  do to the 40 bytes what the plain byte form does.
* **The modes**: the three AEAD variants (one-shot and incremental), XOF, XOFA and PRF, HMAC, HKDF and
  PBKDF2, ISAP, the file tool and the Feistel cipher. They take the permutation as a parameter, so what
  is proved holds for any function on 40-byte states; `BytePermutation.Permute` is the one the backends
  compute. Every block-wise loop is proved against one simple form, a byte at a time (`Duplex.dfy`). What a
  mode computes is also held against what it is for: for a permutation that loses nothing, as Ascon's
  (`Binding.AsconIsInjective`), keys, nonces, headers, payloads, their lengths and their roles all enter
  the state, and equal tags or digests are reduced to collisions of the permutation.

A piece of C state that is updated in place is a class or an array here, and a loop is a loop. Output and
input buffers that may overlap are stretches of one array; a buffer that is only read is a sequence, and
one that is only written is a result.

## Findings

* The comment at `ascon-lora/src/AsconSecureEmissor.cpp:64-67` promises that a power loss never repeats a
  counter. The reservation is written to storage outside the lock, and the model follows the code: with
  several tasks an old reservation may land late, and then a restart can repeat a counter, at once or any
  number of messages later. `SenderLateWrite.RestartRepeatsIff` gives the exact condition at every point up
  to the next load, whatever landed late and was sent since: storage holds the material in use with a
  reservation of at least 32 that is below the counter. `LateWriteHappens` gives such a run. With one
  sending task, or whenever reservations land in order, no counter repeats.
* The stored replay counter is named by seven of the eight bytes of the fingerprint.
  `ReceiverMachine.ProtectedIffNoClash` says exactly for which sets of keys that is harmless.
* The comment at `ascon-lora/src/AsconSecureReceptor.cpp:133-134` promises that a node stays out when
  storage fails. Only `begin` is checked: when `isKey` fails or the entry is lost, the node is registered
  with the protection off, and when `getUInt` fails it is registered with counter 0.
  `ReceiverMachine.ProtectedFromHereIff` gives the exact condition under which the protection still holds
  after any history of such faults; `MisreadCounterReplays` and `LostCounterReplays` show deliveries
  repeated.
* If a provisioning run overlooks a key that is in storage, key and prefix of different origin may be left
  there and put to use; `SenderProvision.TogetherIff` says exactly when, over every run, and
  `SenderProvision.MixedMaterialHappens` gives a run. No nonce repeats even then.
* In `apps/asconcrypt` a failed write returns -1, which `!` takes for success
  (`apps/asconcrypt/asconcrypt.c:485-486`, `508`, `517`, `623`), and a short count is taken for success as well. The
  contracts of `FileCrypt.EncryptFile` and `FileCrypt.DecryptFile` say exactly when success is reported and
  that the output is then right exactly if every write stored all it was given;
  `FileCrypt.FailedWriteReportedAsSuccess` and `FileCrypt.FailedWriteLosesPlaintext` are runs in which it is not.

## Assumptions of the link theorems

A packet passes the tag check under a key of the sender only if the sender wrapped it under that key,
prefix and counter, with that header (`Link.Ideal`). Newly drawn keys and prefixes are new. Begin,
Provision and FactoryReset run with no Wrap in flight. In `Link` and `ReceiverMachine.DeliveredIncrease`
the receiver's stored counters are neither lost nor misread (`ReceiverMachine.Sound`);
`ReceiverMachine.ProtectedFromHereIff` says what remains without that. Storage writes one entry as a whole
or not at all.

## Model

| member | source | states |
|---|---|---|
| Link.DeliveredIsSubsequenceOfSent | ascon-lora/src/AsconSecureReceptor.cpp:172-293 | Over every run of sender, network and receiver, the messages delivered for a key of the sender are a subsequence of the messages it wrapped: same order, no repetition, each with its own header and payload |
| Link.OneTaskDeliversInOrder | ascon-lora/src/AsconSecureReceptor.cpp:172-293 | The same for a sender with one task without assuming that reservations land in order |
| Link.SafeOrders | ascon-lora/src/AsconSecureReceptor.cpp:246-286 | From the joint invariant alone: per key and prefix both lists ascend in the counter and the delivered one is a subsequence of the sent one |
| Link.SafeSend | ascon-lora/src/AsconSecureEmissor.cpp:140-202 | A sender step keeps the joint invariant: what was sent is exactly the list of uses |
| Link.SafeArrive | ascon-lora/src/AsconSecureReceptor.cpp:241-286 | A receiver step keeps it: under a key of the sender nothing is delivered that was not sent |
| Link.SubsequenceOf | ascon-lora/src/AsconSecureReceptor.cpp:246-252 | Two lists that ascend in the counter, one contained in the other, are in the same order |
| SenderMachine.Load | ascon-lora/src/AsconSecureEmissor.cpp:16-58 | A load succeeds exactly when every access works and the stored reservation is at least 32; it resumes at the reservation; a missing counter is refused, never restarted from zero |
| SenderMachine.HandedOutInOrder | ascon-lora/src/AsconSecureEmissor.cpp:140-173 | For any number of tasks and any interleaving of Wrap's steps: since the last load the counters handed out are consecutive, stay below the limit (so never wrap 32 bits), and each was preceded by a loaded or stored value above it |
| SenderMachine.OrderlyStep | ascon-lora/src/AsconSecureEmissor.cpp:68-93 | Every event of the machine (loads, provisioning, reset, lost entries, power loss, each critical section) keeps the in-load invariant |
| SenderMachine.HighestIsBacked | ascon-lora/src/AsconSecureEmissor.cpp:64-67 | Below the largest stored reservation there is always a storage event above the value |
| SenderMachine.WrapAlone | ascon-lora/src/AsconSecureEmissor.cpp:140-173 | The critical sections of one Wrap, run without interruption, add up to one step: the sequential Wrap refines the machine |
| SenderSafety.CountersNeverRepeat | ascon-lora/src/AsconSecureEmissor.cpp:51-93 | Over all runs with failed and lost entries, resets, reprovisioning and power losses, if reservations land in non-decreasing order, the counters used under one key and prefix strictly increase, and none reaches the limit |
| SenderSafety.SafeStep | ascon-lora/src/AsconSecureEmissor.cpp:16-93 | Every event keeps the cross-reboot invariant: what storage would load lies above everything used with it |
| SenderSafety.SafeProvision | ascon-lora/src/AsconSecureProvisionamento.cpp:52-94 | Provisioning keeps it at every possible point of failure, even when it overlooks the key that is there |
| SenderSafety.OneTaskNeverRepeats | ascon-lora/src/AsconSecureEmissor.cpp:68-93 | With one sending task no order assumption is needed |
| SenderSafety.OneTaskStep | ascon-lora/src/AsconSecureEmissor.cpp:76-90 | With one task every reservation is the largest so far |
| SenderProvision.TogetherIff | ascon-lora/src/AsconSecureProvisionamento.cpp:52-94 | Over every run, whatever provisioning sees and wherever it stops: key and prefix in storage, and those in use, were drawn together exactly when the outcomes of the writes do not tell otherwise: an overlooked key, a stored prefix and a key write that did not take effect mix them, until one of the two is replaced or gone |
| SenderProvision.KeyMarksCompletion | ascon-lora/src/AsconSecureProvisionamento.cpp:72-79 | The key is written last: in every run in which provisioning sees the key that is there, key and prefix were drawn together, in storage and in use |
| SenderProvision.MixedMaterialHappens | ascon-lora/src/AsconSecureProvisionamento.cpp:62-79 | From the factory state, a run after which the node uses one drawing's key with another's prefix |
| SenderLateWrite.RestartRepeatsIff | ascon-lora/src/AsconSecureEmissor.cpp:64-93 | The write is outside the lock. After any run in order and any continuation up to the next load, with reservations landing late and messages sent after that: no counter has repeated, and a power loss now with a message after the restart repeats one exactly if storage holds the material in use with a reservation a load accepts that is below the counter |
| SenderLateWrite.UnorderedStep | ascon-lora/src/AsconSecureEmissor.cpp:64-93 | Up to the next load, every event in any order keeps what has been used below the counter, each counter used once, and the stored reservation not below the loaded one |
| SenderLateWrite.LateWriteRepeatsIff | ascon-lora/src/AsconSecureEmissor.cpp:76-90 | An instance: if the power fails as soon as a waiting reservation lands, a counter repeats exactly if the landed value is below the counter |
| SenderLateWrite.LateWriteHappens | ascon-lora/src/AsconSecureEmissor.cpp:76-90 | With two tasks there is a run from the factory state that repeats a counter |
| SenderLateWrite.RestartIsARun | ascon-lora/src/AsconSecureEmissor.cpp:76-90 | That restart is a run of the machine |
| SenderWear.ReloadSkipsAtMost32 | ascon-lora/src/AsconSecureEmissor.cpp:51-55 | With one task, losing power at any point of any run and loading again skips at most 32 counters and never goes back |
| SenderWear.WritesPerBoot | ascon-lora/src/AsconSecureEmissor.cpp:64-93 | A boot that sends m messages makes at most m / 32 + 1 successful reservations |
| SenderWear.MessagesBeforeExhaustion | ascon-lora/src/AsconSecureInterno.h:21-24 | After any run, from any load of a one-task node: exhausted no sooner than limit - c - 32 b messages later, for the loaded counter c and b further loads, whatever else happens |
| SenderWear.MessagesOfANode | ascon-lora/src/AsconSecureInterno.h:21-24 | From the factory on, over every run: at least limit - 32 b messages before the counter is exhausted, b counting every load |
| SenderWear.BootedRun | ascon-lora/src/AsconSecureEmissor.cpp:76-90 | Within a boot the reserved counter is the first one plus 32 for each reservation |
| Sender.Sender.LoadSenderState | ascon-lora/src/AsconSecureEmissor.cpp:16-58 | The method computes Load and leaves storage alone |
| Sender.Sender.Provision | ascon-lora/src/AsconSecureProvisionamento.cpp:52-94 | Storage and memory end as the machine says, for every failing write; OK exactly when the key that is there loads, or everything that draws and stores new material works; a key that is seen is never replaced |
| Sender.Sender.FactoryReset | ascon-lora/src/AsconSecureProvisionamento.cpp:166-188 | OK exactly when the storage was opened and cleared; then it is empty and the keys are wiped, and otherwise what is in use stays in use |
| SenderReset.NothingIsLeft | ascon-lora/src/AsconSecureProvisionamento.cpp:166-188 | After a reset that has worked storage is empty and every load refuses: not provisioned, or storage not accessible |
| SenderReset.FailedReset | ascon-lora/src/AsconSecureProvisionamento.cpp:166-188 | A reset that fails keeps what is in use, and what it leaves in storage is part of what was there |
| SenderReset.ResetForgets | ascon-lora/src/AsconSecureProvisionamento.cpp:166-188 | Over every run: after a reset that has worked no key from before is in storage or ever used again, whatever follows, provisioning included |
| SenderReset.ResetSilences | ascon-lora/src/AsconSecureProvisionamento.cpp:166-188 | Over every run: after it nothing is sent before provisioning has drawn new material |
| SenderReset.PowerLossSilences | ascon-lora/src/AsconSecureEmissor.cpp:16-58 | After a power loss at any point, storage is as it was and nothing is sent before the next load; the first message then has the stored reservation as its counter |
| Sender.Sender.ReserveCounters | ascon-lora/src/AsconSecureEmissor.cpp:68-93 | A value 32 ahead is stored before it is published; on failure nothing is reserved |
| Sender.Sender.NextCounter | ascon-lora/src/AsconSecureEmissor.cpp:140-173 | Hands out the next counter exactly when it is below the limit and covered by a reservation, as the machine's Wrap does |
| Sender.Sender.Wrap | ascon-lora/src/AsconSecureEmissor.cpp:102-209 | Exact error conditions; on success the packet is counter, ciphertext and tag of the original payload for every overlap of payload and packet; on error memory is unchanged and the length is 0 |
| Sender.Sender.BuildPacket | ascon-lora/src/AsconSecureEmissor.cpp:175-202 | The packet of the original payload and header, whatever overlaps |
| Packets.WriteCounterBE | ascon-lora/src/AsconSecureComum.cpp:44-50 | Four big-endian bytes |
| Packets.ReadCounterBE | ascon-lora/src/AsconSecureComum.cpp:52-56 | Reads back what the four bytes stand for |
| Packets.RangesOverlap | ascon-lora/src/AsconSecureComum.cpp:70-78 | True exactly when the two stretches share a byte |
| Packets.BuildNonce | ascon-lora/src/AsconSecureComum.cpp:81-87 | Prefix, then counter |
| Packets.NoncesDiffer | ascon-lora/src/AsconSecureComum.cpp:81-87 | Equal nonces have equal prefixes and counters |
| ReceiverMachine.DeliveredIncrease | ascon-lora/src/AsconSecureReceptor.cpp:246-281 | Over every run of restarts, Begin, registrations, replaced and shared keys, and writes that fail before or after taking effect, in which stored counters are neither lost nor misread: delivered counters strictly increase per key, the stored counter and every entry are never below a delivered one, used ids are distinct |
| ReceiverMachine.ProtectedFromHereIff | ascon-lora/src/AsconSecureReceptor.cpp:125-151 | Counters may be lost and look-ups fail: after any such run, all continuations without further loss keep the order of delivery exactly if it was kept so far and everything delivered has its stored counter, not below it, and is rejected by every entry of its fingerprint |
| ReceiverMachine.ProtectedIffNoClash | ascon-lora/src/AsconSecureReceptor.cpp:28-46 | While stored counters are neither lost nor misread, the protection holds in all runs with a set of keys exactly when no two of their fingerprints differ only outside the seven stored bytes |
| ReceiverMachine.ClashReplays | ascon-lora/src/AsconSecureReceptor.cpp:28-46 | Two keys that clash let an old packet be delivered again |
| ReceiverMachine.LostCounterReplays | ascon-lora/src/AsconSecureReceptor.cpp:141-151 | A lost counter is not noticed: after the loss and a restart anything delivered before is delivered again |
| ReceiverMachine.MisreadCounterReplays | ascon-lora/src/AsconSecureReceptor.cpp:133-151 | Nor is a failed isKey: the peer is registered with the protection off, and anything delivered before is delivered again |
| ReceiverMachine.SameNameIff | ascon-lora/src/AsconSecureReceptor.cpp:36-46 | Two fingerprints share a stored counter exactly when their first seven bytes agree |
| ReceiverMachine.SafeReceive | ascon-lora/src/AsconSecureReceptor.cpp:241-286 | Accepting a packet keeps the invariant, whatever the storage does |
| ReceiverMachine.SafeRegister | ascon-lora/src/AsconSecureReceptor.cpp:119-151 | Registering keeps it: a new entry starts at the stored counter |
| ReceiverMachine.StoredAfterReceive | ascon-lora/src/AsconSecureReceptor.cpp:254-271 | Storing one key's counter lowers no other key's protection |
| ReceiverMachine.FindPeer | ascon-lora/src/AsconSecureReceptor.cpp:18-26 | The first used entry with the id |
| ReceiverFresh.NewIsDelivered | ascon-lora/src/AsconSecureReceptor.cpp:246-281 | Over every run, with any restarts, registrations, failed writes, lost and misread counters: an authentic packet for a registered id, above every counter that has arrived under the same stored counter, is delivered if its write works |
| ReceiverFresh.NewUnderItsKeyIsDelivered | ascon-lora/src/AsconSecureReceptor.cpp:246-281 | Where no two keys clash, only what has arrived under the fingerprint of the key counts |
| ReceiverFresh.BoundedStep | ascon-lora/src/AsconSecureReceptor.cpp:246-281 | Every event keeps entries and stored counters at or below something that has arrived |
| ReceiverFresh.BothAreDelivered | ascon-lora/src/AsconSecureReceptor.cpp:246-281 | After an accepted packet every later counter is accepted and the same one is a replay |
| ReceiverFresh.RegisterIff | ascon-lora/src/AsconSecureReceptor.cpp:81-154 | Registering works exactly if the receiver is ready, storage opens, and the id has an entry or one is free; the id then receives under the new key and no other id is touched |
| Receiver.Receiver.Begin | ascon-lora/src/AsconSecureReceptor.cpp:48-79 | All peers are dropped; ready only if storage opens |
| Receiver.Receiver.Register | ascon-lora/src/AsconSecureReceptor.cpp:81-154 | Replaces the entry of the id or takes the first free one, with the counter as isKey and getUInt tell it, failed look-ups included; every refusal leaves the table alone |
| Receiver.Receiver.AcceptCounter | ascon-lora/src/AsconSecureReceptor.cpp:246-281 | Replay test, then storage, then every entry with the same fingerprint |
| Receiver.Receiver.Unwrap | ascon-lora/src/AsconSecureReceptor.cpp:172-293 | Exact error conditions; a packet that is not authentic changes nothing; on any error the payload buffer is unchanged and the length is 0; on success exactly the plaintext is written |
| Receiver.Receiver.OpenPacket | ascon-lora/src/AsconSecureReceptor.cpp:211-241 | Decrypts in its own buffer |
| Receiver.OpenedIffPacket | ascon-lora/src/AsconSecureReceptor.cpp:218-241 | A packet opens to a payload exactly when it is the packet of that payload under the counter it shows |
| Receiver.WrapThenUnwrap | ascon-lora/src/AsconSecureReceptor.cpp:218-241 | Unwrapping a wrapped packet gives counter and payload back |
| Receiver.AcceptedTwiceIsCollision | ascon-lora/src/AsconSecureReceptor.cpp:218-241 | A packet accepted with a header, or a counter, other than its own shows a collision of the permutation, of the capacity or of the sixteen bytes of the tag |
| AsconC64.Permute | src/core/ascon-c64.c:35-106 | The 64-bit form with the NOT hoisted out of the loop computes the textbook rounds, for every state and first round |
| AsconC64.StepIsRound | src/core/ascon-c64.c:65-92 | One step on the complemented state is the complemented textbook round |
| AsconC64.LayerOfNot | src/core/ascon-c64.c:82-87 | A three-term linear layer commutes with NOT |
| AsconC32.Permute | src/core/ascon-c32.c:36-139 | The 32-bit even/odd form computes the same rounds |
| AsconC32.OneRound32 | src/core/ascon-c32.c:75-122 | One sliced round is one textbook round on the joined words |
| AsconC32.Diffuse32 | src/core/ascon-c32.c:93-118 | The rewritten rotations on the halves are the 64-bit linear layer |
| AsconC32.SboxSliced | src/core/ascon-c32.c:81-91 | The substitution on both halves is the substitution on the joined words |
| AsconSlicing.CombineSeparate | src/core/ascon-sliced32.h:51-64 | combine and separate are inverse to each other |
| AsconSlicing.EvenRotate | src/core/ascon-c32.c:93-118 | The halves of a word rotated by an even number |
| AsconSlicing.OddRotate | src/core/ascon-c32.c:93-118 | The halves of a word rotated by an odd number |
| AsconRounds.LayerOrder | src/core/ascon-c64.c:82-87 | The 64th power of a diffusion layer is the identity |
| AsconRounds.LayerInverts | src/core/ascon-c64.c:82-87 | So its 63rd power is its inverse on both sides |
| AsconRounds.SubstituteInverts | src/core/ascon-c64.c:76-80 | The substitution layer is invertible |
| AsconRounds.RoundInverts | src/core/ascon-c64.c:66-91 | Every round is invertible |
| AsconRounds.RoundsBijective | src/core/ascon-c64.c:66-91 | The permutation is a bijection for every first round, with its inverse given |
| AsconRounds.RoundsInjective | src/core/ascon-c64.c:66-91 | No two states have the same image |
| BytePermutation.PermuteBijective | src/core/ascon-c64.c:52-57 | The same on 40-byte states |
| DirectXor.Permute | src/core/ascon-c64.c:52-106 | The 64-bit form on plain bytes is the byte permutation |
| Snp.State.AddBytes | src/core/ascon-direct-xor.c:73-81 | The byte loop does add bytes for every offset and size; what would reach past byte 40 is ignored |
| Snp.State.OverwriteBytes | src/core/ascon-direct-xor.c:83-91 | The byte loop does overwrite for every offset and size; what would reach past byte 40 is ignored |
| Snp.State.OverwriteWithZeroes | src/core/ascon-direct-xor.c:93-101 | The byte loop does overwrite with zeros for every offset and size; what would reach past byte 40 is ignored |
| Snp.State.ExtractBytes | src/core/ascon-direct-xor.c:103-111 | The byte loop does extract for every offset and size; what would reach past byte 40 is ignored |
| Snp.State.ExtractAndAddBytes | src/core/ascon-direct-xor.c:113-122 | The byte loop does extract and add for every offset and size; what would reach past byte 40 is ignored |
| Snp.State.ExtractAndOverwriteBytes | src/core/ascon-direct-xor.c:124-135 | The byte loop does extract and overwrite for every offset and size; what would reach past byte 40 is ignored |
| Snp.State.Pad | src/core/ascon-util-snp.h:156-157 | The byte loop does the padding bit at every offset |
| Snp.State.Separator | src/core/ascon-util-snp.h:156-157 | The byte loop does the separator bit |
| Sliced64.State.AddBytes | src/core/ascon-sliced64.c:62-70 | On 64-bit words, little- or big-endian in memory, the same as the byte form: add bytes for every offset and size; what would reach past byte 40 is ignored |
| Sliced64.State.OverwriteBytes | src/core/ascon-sliced64.c:72-80 | On 64-bit words, little- or big-endian in memory, the same as the byte form: overwrite for every offset and size; what would reach past byte 40 is ignored |
| Sliced64.State.OverwriteWithZeroes | src/core/ascon-sliced64.c:82-90 | On 64-bit words, little- or big-endian in memory, the same as the byte form: overwrite with zeros for every offset and size; what would reach past byte 40 is ignored |
| Sliced64.State.ExtractBytes | src/core/ascon-sliced64.c:92-100 | On 64-bit words, little- or big-endian in memory, the same as the byte form: extract for every offset and size; what would reach past byte 40 is ignored |
| Sliced64.State.ExtractAndAddBytes | src/core/ascon-sliced64.c:102-111 | On 64-bit words, little- or big-endian in memory, the same as the byte form: extract and add for every offset and size; what would reach past byte 40 is ignored |
| Sliced64.State.ExtractAndOverwriteBytes | src/core/ascon-sliced64.c:113-124 | On 64-bit words, little- or big-endian in memory, the same as the byte form: extract and overwrite for every offset and size; what would reach past byte 40 is ignored |
| Sliced64.State.Pad | src/core/ascon-util-snp.h:93-96 | On 64-bit words, little- or big-endian in memory, the same as the byte form: the padding bit at every offset |
| Sliced64.State.Separator | src/core/ascon-util-snp.h:93-96 | On 64-bit words, little- or big-endian in memory, the same as the byte form: the separator bit |
| Sliced32.State.AddBytes | src/core/ascon-sliced32.c:50-82 | On bit-sliced words, also starting in mid-word and crossing words, the same as the byte form: add bytes for every offset and size within the state |
| Sliced32.State.OverwriteBytes | src/core/ascon-sliced32.c:84-119 | On bit-sliced words, also starting in mid-word and crossing words, the same as the byte form: overwrite for every offset and size within the state |
| Sliced32.State.OverwriteWithZeroes | src/core/ascon-sliced32.c:121-148 | On bit-sliced words, also starting in mid-word and crossing words, the same as the byte form: overwrite with zeros for every offset and size within the state |
| Sliced32.State.ExtractBytes | src/core/ascon-sliced32.c:150-180 | On bit-sliced words, also starting in mid-word and crossing words, the same as the byte form: extract for every offset and size within the state |
| Sliced32.State.ExtractAndAddBytes | src/core/ascon-sliced32.c:182-215 | On bit-sliced words, also starting in mid-word and crossing words, the same as the byte form: extract and add for every offset and size within the state |
| Sliced32.State.ExtractAndOverwriteBytes | src/core/ascon-sliced32.c:217-259 | On bit-sliced words, also starting in mid-word and crossing words, the same as the byte form: extract and overwrite for every offset and size within the state |
| Sliced32.State.Pad | src/core/ascon-util-snp.h:43-46 | On bit-sliced words, also starting in mid-word and crossing words, the same as the byte form: the padding bit at every offset |
| Sliced32.State.Separator | src/core/ascon-util-snp.h:43-46 | On bit-sliced words, also starting in mid-word and crossing words, the same as the byte form: the separator bit |
| Sliced64.State.Permute | src/core/ascon-c64.c:35-106 | The permutation of the word state is the byte permutation of its bytes |
| Sliced32.State.Permute | src/core/ascon-c32.c:36-139 | The permutation of the sliced state is the byte permutation of its bytes |
| Sliced64.State.Absorb8 | src/core/ascon-util-snp.h:98-99 | Whole-word absorption is the byte form |
| Sliced64.State.Encrypt8 | src/core/ascon-util-snp.h:118-122 | Whole-word encryption is the byte form |
| Sliced64.State.Decrypt8 | src/core/ascon-util-snp.h:136-141 | Whole-word decryption is the byte form |
| Sliced32.State.EncryptWord | src/core/ascon-sliced32.h:234-251 | Whole-word encryption is the byte form |
| Sliced32.State.DecryptWord | src/core/ascon-sliced32.h:262-280 | Whole-word decryption is the byte form |
| Sliced32.State.DecryptWordNoInsert | src/core/ascon-sliced32.h:292-308 | Adds the word of the state without changing it |
| Duplex.RunConcat | src/aead/ascon-aead-common.c:82-148 | Cutting the input anywhere changes neither output nor state |
| Duplex.EncryptPart | src/aead/ascon-aead-common.c:86-99 | A block operation is the byte-wise run over its bytes |
| Duplex.DecryptPart | src/aead/ascon-aead-common.c:154-167 | The same for decryption |
| Duplex.DecryptUndoesEncrypt | src/aead/ascon-aead-common.c:150-216 | Decrypting what was encrypted from the same state gives the plaintext and the same final state |
| Duplex.EncryptUndoesDecrypt | src/aead/ascon-aead-common.c:82-148 | And the other way round |
| Binding.AsconIsInjective | src/core/ascon-c64.c:52-57 | The permutation loses nothing, which is what the lemmas about what enters a state assume |
| Binding.BlockEnters | src/aead/ascon-aead-common.c:48-148 | Strings of any lengths that differ within one block, wherever it lies, leave different padded states |
| Binding.ChangeEnters | src/aead/ascon-aead-common.c:82-148 | A change within one block is not undone by anything absorbed after it |
| Binding.SeparatorCounts | src/aead/ascon-aead-128a.c:57-58 | What is absorbed behind the separator is never confused with what is absorbed in front of it |
| Binding.TwoChangesMayCancel | src/aead/ascon-aead-common.c:48-80 | Changes in two blocks may cancel for a permutation that loses nothing: injectivity does not give more |
| AeadCommon.Absorb | src/aead/ascon-aead-common.c:48-80 | The block loop absorbs and pads byte by byte, for every length and both rates |
| AeadCommon.EncryptBlocks | src/aead/ascon-aead-common.c:82-148 | The loop with a carried-over partial block is the byte-wise run, in place or into another buffer |
| AeadCommon.DecryptBlocks | src/aead/ascon-aead-common.c:150-216 | The same for decryption |
| AeadCommon.CheckTag | src/aead/ascon-aead-common.c:26-46 | 0 exactly if the tags agree, otherwise -1 and the plaintext is zeroed |
| Aead.OpenIffSeal | src/aead/ascon-aead-128a.c:73-118 | A string is accepted with plaintext m exactly when it is the encryption of m |
| Aead.Encrypt | src/aead/ascon-aead-128a.c:33-71 | Writes the sealed string, in place or not, for all three variants |
| Aead.Decrypt | src/aead/ascon-aead-128a.c:73-118 | Exact result; the plaintext is written on success and zeros on failure; a short string changes nothing |
| Aead.StartMode | src/aead/ascon-aead-inc-128a.c:59-72 | The start state does not depend on what the state held before |
| AeadBinding.HeaderEnters | src/aead/ascon-aead-128a.c:54-58 | Associated data that differ within one block, of any lengths, lead to different start states |
| AeadBinding.NonceEnters | src/aead/ascon-aead-128a.c:47-52 | So do different nonces |
| AeadBinding.NonceIsPermuted | src/aead/ascon-aead-128a.c:47-52 | And only through the permutation: where it does not tell nonces apart, nothing does |
| AeadBinding.KeyEnters | src/aead/ascon-aead-128a.c:47-71 | The key enters the first and the last input of the permutation |
| AeadBinding.KeyEntersAgain | src/aead/ascon-aead-128a.c:47-71 | And the states behind both: where the permutation does not tell keys apart, start states and tags still do |
| AeadBinding.PhasesApart | src/aead/ascon-aead-128a.c:54-71 | The padded header and then the payload never leave the state that absorbing all of it as header leaves |
| AeadBinding.SameTagIff | src/aead/ascon-aead-128a.c:60-71 | Tags under one key agree exactly when the last outputs of the permutation agree in sixteen bytes |
| AeadBinding.EveryPartEnters | src/aead/ascon-aead-128a.c:33-71 | Nonce, associated data and payload all enter the last input of the permutation; equal tags are a collision of its output |
| AeadBinding.AcceptedTwiceIsCollision | src/aead/ascon-aead-128a.c:73-118 | A string accepted under two nonces, or with two headers that differ in one block, shows a collision, of the capacity on the way or of the tag |
| AeadBinding.TamperedIsCollision | src/aead/ascon-aead-128a.c:73-118 | So does a string that is accepted under its old tag after one block of its ciphertext was changed |
| AeadBinding.IvNamesParameters | src/aead/ascon-aead-128a.c:30-31 | The initialization vectors name key size, rate and rounds of the three variants |
| AeadIncremental.IncrementNonce | src/aead/ascon-aead-util.c:33-43 | Adds one to the 128-bit big-endian nonce, modulo 2^128 |
| AeadIncremental.Incremental.constructor | src/aead/ascon-aead-inc-128a.c:31-38 | A missing key or nonce is all zeros |
| AeadIncremental.Incremental.Reinit | src/aead/ascon-aead-inc-128a.c:40-53 | Key, nonce and position are set |
| AeadIncremental.Incremental.Begin | src/aead/ascon-aead-inc-128a.c:55-80 | The start of a packet under the current nonce, which then moves on by one |
| AeadIncremental.Incremental.EncryptBlock | src/aead/ascon-aead-inc-128a.c:91-99 | Goes on from the position reached, for every length |
| AeadIncremental.Incremental.DecryptBlock | src/aead/ascon-aead-inc-128a.c:116-124 | Goes on from the position reached, for every length |
| AeadIncremental.Incremental.EncryptFinalize | src/aead/ascon-aead-inc-128a.c:101-114 | The tag |
| AeadIncremental.Incremental.DecryptFinalize | src/aead/ascon-aead-inc-128a.c:126-147 | 0 exactly if the given tag is the recomputed one |
| AeadIncremental.PiecesSeal | src/aead/ascon-aead-inc-128a.c:55-114 | Any pieces give the one-shot ciphertext |
| AeadIncremental.PiecesOpen | src/aead/ascon-aead-inc-128a.c:116-147 | Any pieces are accepted exactly when the one-shot form accepts |
| AeadIncremental.PiecesRoundTrip | src/aead/ascon-aead-inc-128a.c:91-147 | Pieces chosen independently on both sides: the receiver gets the plaintext and reaches the same state |
| Sponge.Xof.Absorb | src/hash/ascon-xof.c:228-276 | Absorbs byte by byte from every mode and count |
| Sponge.Xof.Squeeze | src/hash/ascon-xof.c:278-327 | Squeezes byte by byte from every mode and count, for all three disciplines |
| Sponge.Xof.SqueezeAfter | src/mac/ascon-prf.c:223-253 | Permuting before each block |
| Sponge.Xof.SqueezeThen | src/hash/ascon-xofa.c:292-322 | Permuting after each block |
| Sponge.Xof.Pad | src/hash/ascon-xof.c:329-342 | Moves to a block boundary |
| Sponge.AbsorbInTwo | src/hash/ascon-xof.c:228-276 | absorb(a); absorb(b) is absorb(a + b), from every mode and count |
| Sponge.SqueezeInTwo | src/hash/ascon-xofa.c:276-326 | squeeze(n); squeeze(m) is squeeze(n + m), from every mode and count |
| Sponge.AbsorbedProper | src/mac/ascon-prf.c:156-205 | The count stays below the rate |
| Sponge.SqueezedProper | src/mac/ascon-prf.c:207-257 | The count stays below the rate |
| Sponge.PadIsZeros | src/hash/ascon-xof.c:329-342 | While absorbing, padding is absorbing zeros up to the boundary |
| Sponge.EndIsMarked | src/hash/ascon-xof.c:278-327 | Wherever the input ends within a block and whatever the end holds, the state tells, for every discipline, mode and count |
| Sponge.ChangeIsKept | src/hash/ascon-xof.c:228-327 | A change within one block of the input changes the state that is read from |
| Sponge.SameOutputIsCollision | src/hash/ascon-xof.c:228-327 | Inputs that differ within one block and agree in the first block of output show a collision of the permutation |
| Sponge.AllRoundsFirst | src/hash/ascon-xofa.c:276-326 | In XOF, XOFA and PRF all twelve rounds run between the end of the input and the first output |
| Sponge.ReadingApartIff | src/mac/ascon-prf.c:207-257 | The state that is read is one that absorbing leads to exactly if there is no separator: never in the PRF |
| Sponge.TurnsAround | src/hash/ascon-xof.c:228-245 | Absorbing after squeezing goes on from the permuted state, wherever squeezing has stopped |
| SpongeStart.InitFixed | src/hash/ascon-xof.c:74-127 | All three branches, tables included, start from the permuted initialization vector for that output length |
| SpongeStart.SameStartIff | src/hash/ascon-xof.c:74-127 | Two output lengths share a start state exactly if they are equal or both stand for any length |
| SpongeStart.AlgorithmsApart | src/hash/ascon-xofa.c:72-125 | XOF and XOFA never start from the same state |
| SpongeStart.InitPrf | src/mac/ascon-prf.c:115-132 | The permuted vector, key and length |
| SpongeStart.SamePrfStartIff | src/mac/ascon-prf.c:115-132 | Keys and lengths of the PRF share a start state only if they are the same |
| HashTables.XofTable | src/hash/ascon-xof.c:39-45 | The table is what the twelve rounds make of the initialization vector |
| HashTables.HashTable | src/hash/ascon-hash.c:38-44 | The same for 32 bytes of output |
| HashTables.XofaTable | src/hash/ascon-xofa.c:37-43 | The same for XOFA |
| HashTables.HashaTable | src/hash/ascon-hasha.c:38-44 | The same for XOFA with 32 bytes of output |
| Hmac.PiecesAreMac | src/mac/ascon-hmac-common.h:136-173 | For every key and every cutting of the text, the incremental form is HMAC of section 2 of RFC 2104 |
| Hmac.FeedAllIsFeed | src/mac/ascon-hmac-common.h:156-160 | Any pieces feed the hash like their concatenation |
| Hmac.SameKeyIff | src/mac/ascon-hmac-common.h:79-121 | Keys of up to a block are the same key exactly if one is the other with zeros behind it |
| Hmac.LongKeyIsItsHash | src/mac/ascon-hmac-common.h:79-121 | A longer key stands for its hash |
| Hmac.MacIsNested | src/mac/ascon-hmac-common.h:136-173 | The two hashes begin with blocks that differ in every byte and give the key back |
| Hmac.SameMacIsCollision | src/mac/ascon-hmac-common.h:136-173 | Two texts with the same MAC under one key show a collision of the hash |
| Hmac.State.AbsorbKey | src/mac/ascon-hmac-common.h:79-121 | 32-byte pieces absorb exactly the padded or hashed key block |
| Hmac.State.Finalize | src/mac/ascon-hmac-common.h:162-173 | The outer hash over the inner digest |
| Hmac.Compute | src/mac/ascon-hmac-common.h:123-134 | HMAC in one call |
| Hkdf.State.Extract | src/kdf/ascon-hkdf-common.h:58-70 | The pseudorandom key, and an empty position |
| Hkdf.NoSaltIsZeros | src/kdf/ascon-hkdf-common.h:58-70 | No salt is the same as a salt of zeros, as section 2.2 of RFC 5869 has it |
| Hkdf.State.Expand | src/kdf/ascon-hkdf-common.h:72-118 | The next bytes of T(1)|T(2)|... of section 2.3 of RFC 5869; -1 exactly when the stream of 255 blocks ends, with zeros for the rest |
| Hkdf.ReadInTwo | src/kdf/ascon-hkdf-common.h:80-117 | Two reads give what one read gives, result included |
| Hkdf.ReadingsAreOne | src/kdf/ascon-hkdf-common.h:80-117 | Any sequence of reads gives what one read of the whole length gives, result included |
| Hkdf.BlockInStream | src/kdf/ascon-hkdf-common.h:98-106 | Block i stands at its place: no block number is used twice |
| Hkdf.BlocksHaveTheirOwnText | src/kdf/ascon-hkdf-common.h:98-106 | No two blocks of the stream are made from the same text |
| Hkdf.InfoEnters | src/kdf/ascon-hkdf-common.h:98-106 | Nor are the blocks of two info strings, at any place |
| Hkdf.Derive | src/kdf/ascon-hkdf-common.h:43-56 | Refuses exactly more than 255 blocks |
| Pbkdf2.BlockOf | src/password/ascon-pbkdf2-hmac.c:30-56 | F of section 5.2 of RFC 8018: the sum of U_1 to U_max(count, 1) |
| Pbkdf2.ChainsBeginApart | src/password/ascon-pbkdf2-hmac.c:30-56 | The chains of different blocks or salts begin with different texts |
| Pbkdf2.ChainLink | src/password/ascon-pbkdf2-hmac.c:40-56 | One more iteration adds exactly the MAC of the link before |
| Pbkdf2.Derive | src/password/ascon-pbkdf2-hmac.c:58-83 | The prefix of the concatenated blocks |
| Isap.OpenIffSeal | src/isap/ascon-isap-common.h:293-344 | Accepted with plaintext m exactly when it is the encryption of m |
| Isap.CryptedTwice | src/isap/ascon-isap-common.h:134-156 | Encryption is its own inverse |
| Isap.Rekey | src/isap/ascon-isap-common.h:105-122 | Bit by bit; the result does not depend on the incoming state |
| Isap.NextBitCounts | src/isap/ascon-isap-common.h:105-122 | While two re-keyings agree, they go on agreeing exactly if the next bits of the data, read as big-endian numbers, are the same |
| Isap.EveryBitCounts | src/isap/ascon-isap-common.h:105-122 | Data that differ in a single bit, whichever it is, give different keys |
| Isap.KeysStayApart | src/isap/ascon-isap-common.h:105-122 | So do different keys and the same data |
| Isap.RoundsOfBits | src/isap/ascon-isap-common.h:105-122 | Between two bits run sB rounds, behind the last one sK |
| Isap.KeyEnters | src/isap/ascon-isap-common.h:235-255 | Different keys expand to different keys, only through the permutation |
| Isap.PurposesApart | src/isap/ascon-isap-common.h:235-255 | The keys for encryption and authentication differ |
| Isap.KeystreamsApart | src/isap/ascon-isap-common.h:134-156 | Different nonces start different keystreams |
| Isap.HashedApart | src/isap/ascon-isap-common.h:169-233 | The hash tells apart nonces, and associated data and ciphertexts that differ within one block |
| Isap.PartsApart | src/isap/ascon-isap-common.h:169-233 | Associated data are never confused with ciphertext |
| Isap.SameTagIff | src/isap/ascon-isap-common.h:169-233 | Where the part of the hash that stays in the state differs, equal tags are exactly a collision of the last output of the permutation |
| Isap.Crypt | src/isap/ascon-isap-common.h:134-156 | The keystream is added, in place or not, whatever the state was |
| Isap.Mac | src/isap/ascon-isap-common.h:169-233 | The tag does not depend on the incoming state |
| Isap.Encrypt | src/isap/ascon-isap-common.h:293-313 | Encrypt, then authenticate, on one state |
| Isap.Decrypt | src/isap/ascon-isap-common.h:315-344 | Authenticate, then decrypt, on one state; exact result, zeros on failure |
| Isap.Key.constructor | src/isap/ascon-isap-common.h:235-255 | The expanded key |
| Isap.Key.Save | src/isap/ascon-isap-common.h:270-281 | 80 bytes that hold both states |
| Isap.Key.Load | src/isap/ascon-isap-common.h:257-268 | Restores exactly the saved states, so every result is the same |
| Isap.ReloadedKeyDecrypts | src/isap/ascon-isap-common.h:257-344 | Save, load, encrypt with the key, decrypt with the reloaded one: accepted, and the plaintext is back |
| FileCrypt.ContentsOfImage | apps/asconcrypt/asconcrypt.c:434-650 | For every file within the limit, what decryption makes of the encrypted file is the file |
| FileCrypt.ContentsIff | apps/asconcrypt/asconcrypt.c:536-650 | A file decrypts to a text exactly if header, limit and protected key are right under that header and the rest is that text encrypted under the protected key |
| FileCrypt.EncryptFile | apps/asconcrypt/asconcrypt.c:434-533 | Success is reported exactly if random numbers came, the size is within the limit, no read failed and no write returned 0; and then the output is the encrypted file exactly if every write stored all it was given; on failure the output is deleted |
| FileCrypt.DecryptFile | apps/asconcrypt/asconcrypt.c:536-650 | Success is reported exactly if header, protected key, length, limit and tag are right, no read failed and no write returned 0; and then the output is the plaintext exactly if every write stored all it was given |
| FileCrypt.EncryptLoop | apps/asconcrypt/asconcrypt.c:494-513 | For every buffer size, however the system cuts reads and writes and whichever of them fail, the whole file goes through once and in order, or failure is reported |
| FileCrypt.DecryptLoop | apps/asconcrypt/asconcrypt.c:609-629 | The buffer front holds exactly the last 16 bytes read; everything before them was decrypted once and in order; the limit applies to the plaintext length; a failed read is reported |
| FileCrypt.Window | apps/asconcrypt/asconcrypt.c:610-625 | What the buffer shows after a read |
| FileCrypt.Input.Read | apps/asconcrypt/fileops.c:129-158 | Fills the buffer unless the file ends, however the system cuts the reads; -1 if a call fails |
| FileCrypt.Output.Write | apps/asconcrypt/fileops.c:160-190 | Writes on until a call fails or moves nothing: what is stored is a front part of the data, what is returned is -1 or its length |
| FileCrypt.CountsTell | apps/asconcrypt/fileops.c:160-190 | When no call failed, the returned counts tell exactly whether all was stored |
| FileCrypt.StoredThoughFailed | apps/asconcrypt/fileops.c:160-190 | -1 does not tell: all bytes may have been stored before the failing call |
| FileCrypt.FailedWriteReportedAsSuccess | apps/asconcrypt/asconcrypt.c:483-518 | For every file within the limit: the first write fails, the tool reports success, and the output is not the encrypted file |
| FileCrypt.FailedWriteLosesPlaintext | apps/asconcrypt/asconcrypt.c:622-650 | For every file that is not empty: the first write of a decryption fails, the tool reports success, and the output is not the plaintext |
| Feistel.DecryptUndoesEncrypt | examples/block-cipher/ascon-ecb.c:175-279 | For every key schedule, tweak or none, and number of rounds, each direction undoes the other |
| Feistel.BackwardUndoesForward | examples/block-cipher/ascon-ecb.c:247-273 | The rounds in reverse order on swapped halves undo the rounds |
| Feistel.Encrypt | examples/block-cipher/ascon-ecb.c:175-226 | The loop with swapped pointers |
| Feistel.Decrypt | examples/block-cipher/ascon-ecb.c:228-279 | The loop in reverse |
| Feistel.AddRound | examples/block-cipher/ascon-ecb.c:195-214 | All 40 state bytes are overwritten: the round function depends on its arguments only |
| Feistel.SameInputIff | examples/block-cipher/ascon-ecb.c:195-214 | Half, round key, tweak and constant all enter the round function; no tweak counts as zeros |
| Feistel.SameHalfIsCollision | examples/block-cipher/ascon-ecb.c:195-214 | Equal outputs of different inputs are a collision of the permutation |
| Feistel.DoubledInjective | examples/block-cipher/ascon-ecb.c:162-166 | Doubling loses nothing |
| Feistel.Init | examples/block-cipher/ascon-ecb.c:155-167 | Each round key is the double of the one before |
| Feistel.ScheduleDoubles | examples/block-cipher/ascon-ecb.c:155-167 | Every round key is the double of the one before |
| Feistel.SchedulesApart | examples/block-cipher/ascon-ecb.c:155-167 | Two keys have different round keys in every round |
| Memory.Move | ascon-lora/src/AsconSecureEmissor.cpp:178-185 | memmove for every overlap |

## Left out

- Sliced32.State.AddBytes: offset and size stay within the 40 bytes, here and in the other operations on bit-sliced words, as `src/ascon/permutation.h:112` asks of the caller; the source does not check it there and would index past the words.
- Aead.Encrypt: an output that starts inside its own input is not modelled, here and in the other functions on overlapping buffers; the interface allows the same buffer only (`src/ascon/aead.h:471`, `500`), and the contracts also cover an output in front of its input and one apart from it.
- AeadCommon.EncryptBlocks: the functions for rates 8 and 16 are one method with the rate as a parameter, here, in DecryptBlocks and in Absorb.
- Sponge.Xof.Absorb: XOF, XOFA and PRF are one class with the placement of the permutation as a parameter; the two 16-byte additions of a full PRF block are one addition of 32 bytes.
- Sponge.Xof.constructor: the initial state is a parameter; `SpongeStart` computes it for XOF, XOFA and PRF. The tables in bit-sliced form and those of KMAC are not checked.
- Receiver.Receiver.OpenPacket: ciphertext and scratch buffer are two stretches of one local array.
- FileCrypt.EncryptFile: the SIV cipher and the XOF-based password derivation are abstract functions, the former assumed invertible; their sources are not part of this model.
- FileCrypt.Input.Read: calls that are interrupted and made again (`EINTR`, `EAGAIN`) and the variants on stdio streams are not modelled; a failing deletion of the output is not either.
- Pbkdf2.Derive: the block number is written modulo 2^32 as in the source; the limit of RFC 8018 on the length is not checked there and not here.
- SenderMachine.Load: what a failed read leaves in the key buffer in memory is not modelled, since nothing is sent with it.
- Random number generation, logging, cycle timing, printing of the key, password prompts, command-line parsing and file descriptors: I/O only.
- The text shortcuts Pack and Open and the text of status codes: thin wrappers.
- Masked implementations, assembly backends, SIV and the KDF and KMAC wrappers: not modelled.
- ascon_prf_short, ascon_mac, customised XOF: short straight-line code over the modelled operations.
- C++ wrapper classes, hexadecimal conversion, hash-file checking and the benchmark sketches: no reasoning of their own.
- Wiping of memory, constant-time execution and cryptographic strength: not functional properties.
