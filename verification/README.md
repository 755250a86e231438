# The algorithmic cores of the IoT Hub device SDK

A Dafny model of the self-contained algorithms under the SDK's input and output, with proofs. Each `.dfy` file holds
one of them:

- `BlockHash.dfy`, `Sha1.dfy`, `Md5.dfy`, `Hex.dfy`, `Hmac.dfy`: the streaming digests. The definitions of RFC 3174,
  RFC 1321 and RFC 2104 stand in `Sha1Spec`, `Md5Spec` and `HmacSpec`; the unrolled, buffered code is a class whose
  methods are proved against them, for every way of cutting a message into chunks.
- `Json.dfy`, `JsonText.dfy`: the JSON lookup that scans text without building a tree, against a printer of trees.
- `Ota.dfy`: the resumable firmware download over any number of boots, with a power cut possible at every step and
  inside every write: a cut leaves any first part of the bytes being written, of the firmware as of the break point.
  A write may also be cut short with the power on, which the source does not look at.
- `MqttPacket.dfy`, `MqttDecode.dfy`, `MqttDeserialize.dfy`, `MqttStream.dfy`: the MQTT 3.1.1 packets. `MqttWire` is
  the wire format, `MqttDecode` a decoder written from the standard alone (its `Read` functions find the fields, its
  `Decode` functions also refuse the values the standard forbids), `MqttSerialize` and `MqttDeserialize` the client's
  own code over a byte buffer, and `MqttStream` the framing of packets out of a network stream.
- `TopicFilter.dfy`: the two-cursor topic matcher, against section 4.7.1 of MQTT 3.1.1.
- `UtilsList.dfy`: the doubly linked list behind the wait lists, relinked in place.
- `MqttPublish.dfy`, `RepeatRing.dfy`, `MqttSubscribe.dfy`, `MqttLink.dfy`: the client's session. QoS 1 publishes and
  subscribe requests wait in lists of `UtilsList`; the ring of repeated ids; the subscription table; pings, disconnects
  and the reconnect back-off.
- `Common.dfy`: types that several of these share.
- `Base64.dfy`: the Base64 coder, against section 4 of RFC 4648.

Code that changes things in place is imperative here: contexts, lists, tables and sessions are classes, buffers are
arrays, loops are loops. Time, the network and the power supply are inputs: a method takes the current time, what
sending will return, or a plan of what the reads to come will do. Memory that C code reads through a pointer is a
sequence or an array, and an outcome of its own says when the code would read outside it.

Some functions do not do what their comments or the standard suggest. The model follows the code, and the exact
condition under which it does meet the standard is proved:

- The length a digest ends its padding with is right exactly when the multiples of 2^32 that narrowing each chunk's
  length to 32 bits drops come to none, or for MD5, whose length is modulo 2^64, to a multiple of 2^61 bytes; then the
  digest is that of the message (`Sha1.FinishedTextExact`, `Md5.FinishedTextExact`).
- An OTA success says that the announced sum is that of what the boot hashed: the bytes its restore abandoned, the part
  of the store it restored, and what it fetched. The abandoned bytes are the first k of the store as the boot found it,
  k a multiple of 1024 below the recorded size, when the read at k fails, and none otherwise (`Ota.Life`,
  `Ota.FailedAtBlock`, `Ota.OneKilobyteAbandoned`). When there are any, a file that has the announced sum is reported a
  success only if its sum is also that of both together (`Ota.AbandonedHidesSuccess`). The restored and the fetched part
  are the stored file, and the recorded size is covered by it, as long as every write to the firmware file wrote all its
  bytes (`whole` in `Ota.Life`); an image whose write leaves nothing is counted, recorded and reported a success
  (`Ota.ShortWriteIsReportedSuccess`).
- The topic matcher refuses what section 4.7.1 allows where a wildcard meets nothing or an empty level, and only there
  (`TopicLevels.AcceptsExactly`).
- The fields of a PUBLISH read back exactly when its topic has 1 to 65535 bytes and a QoS above 0 keeps a bit in its
  field; those of CONNECT, SUBSCRIBE and UNSUBSCRIBE exactly when every string fits its length field and the CONNECT
  options are ones the protocol has (`MqttDecode.PublishReads`, `ConnectReads`, `SubscriptionsRead`, `FiltersRead`).
  The standard takes them exactly when the values are also ones it allows, which the serializers do not check
  (`PublishDecodes`, `ConnectDecodes`, `SubscriptionsDecode`, `FiltersDecode`, `ForbiddenRequests`).
- The client accepts a PUBLISH the standard has it refuse exactly when the fields read but hold QoS 3, a duplicate of
  QoS 0, an id of 0 or a topic that is not a name (`MqttDeserialize.PublishDeserialize`, `QosThreeIsAccepted`).
- The length check of CONNECT leaves the fixed header out, so the packet may pass the end of the buffer it was checked
  against (`MqttSerialize.ConnectSerialize`, `ConnectCheckIsTooWeak`); the other checks allow for four length bytes.
- The remaining-length decoder reads one byte past its buffer exactly after a run of bytes 0x80 that fills it; the
  result does not depend on that byte (`MqttDeserialize.RemainingLengthDeserialize`). The PUBLISH decoder does not
  check the topic against the remaining length: a malformed packet is accepted with a negative payload length exactly
  when its topic is not empty, the topic or the id runs past the end of the packet, and the id, if there is one, stays
  inside the memory (`PublishDeserialize`, `OverrunIsAccepted`). The PUBACK decoder writes through a null pointer exactly when the first byte is that of a PUBLISH (`PubackDeserialize`).
- A packet too long for the read buffer is thrown away and nothing after it exactly when its body has at least the size
  of the buffer or nothing stands behind it; a shorter body takes as many bytes of the next packets with it as it is
  short of the buffer, and the next read starts inside them (`MqttStream.SkipsExactly`, `OneByteMoreGoes`, `Derailed`,
  `InStepExactly`).
- The Base64 decoder takes texts the standard does not have: symbols behind the last group of four are dropped, and so
  are the bits of the last symbol that no octet needs. What it accepts is the encoding of what it decodes to exactly
  when the symbols come in fours and these bits are 0 (`Base64.EncodedAgain`, `UnfinishedGroupIsLost`,
  `LooseBitsAreLost`).
- Removing a filter that holds "/#" or "/+" empties the whole subscription table (`SubTable.RemovesOne`).

## Model

| member | source | states |
|---|---|---|
| Sha1.DigestOfChunks | common/cryptology/src/utils_sha1.c:290-361 | for every message and every way of cutting it into chunks, updates and finish give the RFC 3174 digest of the whole when each chunk is under 2^32 bytes, and for any chunks the digest of a text whose length field misses the carries |
| Sha1.Context.Update | common/cryptology/src/utils_sha1.c:290-326 | after any chunk the state is the fold of the compression over the full blocks so far, the buffer holds the unprocessed tail and the two-word total the byte count, less what narrowing the length lost |
| Sha1.Context.AbsorbBytes | common/cryptology/src/utils_sha1.c:309-325 | completing a waiting block and taking whole blocks straight from the input keeps state and tail those of the message |
| Sha1.Context.TakeBlocks | common/cryptology/src/utils_sha1.c:317-321 | the block loop stops with less than a block left and folds exactly the blocks it took |
| Sha1.Context.AddToTotal | common/cryptology/src/utils_sha1.c:302-307 | the two-word count wraps and carries so that it stays the byte count less the lost multiples of 2^32 |
| Sha1.Context.Finish | common/cryptology/src/utils_sha1.c:338-361 | the padding and the encoded length are absorbed and the state over them is stored, the rest of the output unchanged |
| Sha1.FinishedTextExact | common/cryptology/src/utils_sha1.c:338-355 | what finish hashes is the padding of section 4 of RFC 3174, and its length field right, exactly when no chunk length lost a carry |
| Sha1.LengthField | common/cryptology/src/utils_sha1.c:343-347 | the two words written most significant byte first are the 64-bit count of bits |
| Sha1.Context.Process | common/cryptology/src/utils_sha1.c:130-281 | the unrolled block function with a rolling schedule is the 80-word, five-register compression of section 6.1 of RFC 3174, for every state and block |
| Sha1.RingHolds | common/cryptology/src/utils_sha1.c:153-154 | word i of the 80-word schedule stands in slot i mod 16 as long as it is one of the latest sixteen |
| Sha1.R | common/cryptology/src/utils_sha1.c:153-154 | storing the new word in place over the one sixteen rounds back yields the next schedule word and keeps the array the latest sixteen |
| Sha1.P | common/cryptology/src/utils_sha1.c:156-160 | a round written on two registers, the other three renamed by the caller, is the round of the definition |
| Sha1.FastFIsF | common/cryptology/src/utils_sha1.c:168-233 | the cheaper boolean functions are the defining ones of section 5 for every word |
| Sha1.Rounds0To19 | common/cryptology/src/utils_sha1.c:171-190 | the last four of these rounds take their words from the ring and lead to the registers after round 20 |
| Sha1.FiveRounds | common/cryptology/src/utils_sha1.c:198-271 | any five rounds in a row, each on registers renamed by one place, lead to the registers of the definition under their own names, and keep the array the latest sixteen words |
| Sha1.Rounds20To79 | common/cryptology/src/utils_sha1.c:198-271 | these rounds lead from the registers after round 20 to those after round 80 |
| Sha1.LoadWords | common/cryptology/src/utils_sha1.c:134-149 | the array starts as the first sixteen words of the schedule |
| Sha1.Sha1Sum | common/cryptology/src/utils_sha1.c:370-379 | the one-shot call is the digest of its input, under the same condition on the length |
| BlockHash.CountSplits | common/cryptology/src/utils_sha1.c:302-307 | narrowing a length to 32 bits and carrying into the high word loses exactly its multiples of 2^32 |
| BlockHash.BitCountExact | common/cryptology/src/utils_sha1.c:343-344 | the encoded bit count is eight times the length exactly when nothing was lost |
| Md5.DigestOfChunks | common/cryptology/src/utils_md5.c:264-338 | for every message of any length the hex text is that of its RFC 1321 digest, for every cut into chunks under 2^32 bytes, and for any chunks the digest of a text whose length field misses the carries |
| Md5.Context.Update | common/cryptology/src/utils_md5.c:264-300 | the same invariant as SHA-1: state is the fold, buffer the tail, total the count less the lost carries |
| Md5.Context.Finish | common/cryptology/src/utils_md5.c:307-338 | pads, appends the count least significant byte first and stores the state as lower-case hex with a terminator |
| Md5.FinishedTextExact | common/cryptology/src/utils_md5.c:307-325 | for every length, the length field is the low-order 64 bits of the bit count exactly when the carries lost are a multiple of 2^29, and then what finish hashes is the padding of section 3 of RFC 1321 |
| Md5.Context.Process | common/cryptology/src/utils_md5.c:121-243 | the 64 unrolled steps with renamed registers are the compression of section 3.4 of RFC 1321 for every state and block |
| Md5.P | common/cryptology/src/utils_md5.c:142-148 | one step on one register, the others renamed by the caller, is the step of the definition |
| Md5.FastFIsF | common/cryptology/src/utils_md5.c:150-216 | the cheaper boolean functions are the defining ones for every word |
| Md5.Context.Reset | common/cryptology/src/utils_md5.c:250-255 | a reset context has absorbed nothing, whatever it held |
| Md5.Context.Compare | common/cryptology/src/utils_md5.c:347-352 | a stored text without a terminator in its first 32 characters differs exactly when these are not the 32 characters announced with their letters lowered |
| Hex.EqualUpToIsEqual | common/cryptology/src/utils_md5.c:347-352 | comparing up to n characters or a terminator is equality of the first n when the stored text has no terminator |
| Hex.EqualUpToIsSameText | app/ota/ota_downloader.c:159-162 | the bounded compare says exactly whether the two C strings, cut to the bound, are the same |
| Hex.HexInjective | common/cryptology/src/utils_md5.c:333-336 | two digests with the same hex text are the same bytes |
| Hex.HexHasNoTerminator | common/cryptology/src/utils_md5.c:333-337 | the digest text is not cut short |
| Hmac.HmacSha1 | common/cryptology/src/utils_hmac.c:66-113 | for keys up to 64 bytes the text is the hex of the HMAC of section 2 of RFC 2104, and a longer key is refused with nothing written |
| Hmac.HashPair | common/cryptology/src/utils_hmac.c:95-105 | one pass of the streaming digest over a pad and a text is the digest of the two joined |
| Hmac.XorPads | common/cryptology/src/utils_hmac.c:88-92 | both pads are XORed in place over all their bytes |
| JsonText.PathFound | common/utils/src/utils_json.c:456-493 | in any memory that holds a printed tree, a dotted path is the composition of one-level lookups in the tree: found exactly when the chain of names leads somewhere, and then the very slice where that value is printed |
| JsonText.ChildFound | common/utils/src/utils_json.c:412-444 | a one-level lookup hands out the text of the first member with the key, at its place, and fails when there is none, whatever surrounds the text |
| JsonText.FieldsFound | common/utils/src/utils_json.c:424-443 | the member loop finds the first value under the key and needs none of the memory after the object's closing brace, although its counter over-counts |
| JsonText.TurnAt | common/utils/src/utils_json.c:424-441 | one turn hits the member, stops after the last one, or goes on behind the comma with the counter off by the slack of the value |
| JsonText.ValueAt | common/utils/src/utils_json.c:334-400 | a printed value of any kind is read as exactly its text; the counter is left one too high after a string, array or object |
| JsonText.EndAt | common/utils/src/utils_json.c:256-296 | the end of a value is found by its own brackets, quotes or characters, whatever follows |
| JsonText.WalkBrackets | common/utils/src/utils_json.c:256-296 | the depth count follows the brackets of the text over any stretch that does not close more than it opened |
| JsonText.WalkString | common/utils/src/utils_json.c:145-148 | no character inside a string but the closing quote ends it |
| JsonText.WalkNumber | common/utils/src/utils_json.c:157-160 | a number ends at the first character that cannot belong to one |
| JsonText.KeyAt | common/utils/src/utils_json.c:306-324 | a key is read as the characters between its quotes |
| JsonText.NoObjectInString | common/utils/src/utils_json.c:412-444 | looking for a member in the text of a string fails, even when the string holds braces |
| Json.FindJsonDelimiter | common/utils/src/utils_json.c:230-245 | the moving cursor and counter agree with the recursive definition of the skip |
| Json.FindElementEnd | common/utils/src/utils_json.c:256-296 | the loop agrees with the recursive definition of the end of an element, from any position |
| Json.GetJsonKey | common/utils/src/utils_json.c:306-324 | the key found, or failure with the counter as the code leaves it |
| Json.GetJsonValue | common/utils/src/utils_json.c:334-400 | the value found, or failure with the counter as the code leaves it |
| Json.GetValueByKey | common/utils/src/utils_json.c:412-444 | 0 and the element the member loop finds, or -1 |
| Json.JsonValueGet | common/utils/src/utils_json.c:456-493 | 0 and the element the path leads to through one lookup a name, or -1 |
| Ota.Life | common/utils/src/utils_downloader.c:70-127 | over any sequence of boots, announced images, power cuts and short writes: every concluded download reports success exactly when the announced sum is that of what it hashed; as long as no write to the firmware was short, the size a boot would read never passes the firmware file, what was hashed is the abandoned bytes and the file, and with one image announced all along the bytes any break point file vouches for are the image's, and so is every file a concluded boot leaves |
| Ota.RunBoot | common/utils/src/utils_downloader.c:70-127 | between the files before and after one boot: what it reports is earned, faithful files stay so, and only a short write ends a whole store |
| Ota.AbandonedHidesSuccess | app/ota/ota_downloader.c:182-187 | a file with the announced sum is reported a success exactly when the sum of the abandoned bytes and the file is the file's own |
| Ota.ShortWriteIsReportedSuccess | app/ota/ota_firmware_save.c:113-130 | any image of up to 1024 bytes whose one write leaves nothing on the store is counted, recorded and reported a success |
| Ota.SumIsAnnounced | app/ota/ota_downloader.c:286-298 | every image has a sum with which it can be announced |
| Ota.EarnedPlainly | app/ota/ota_downloader.c:181-191 | with no read of the restore failed, or the first one, the report says whether the file has the announced sum |
| Ota.FailedAtBlock | app/ota/ota_downloader.c:181-191 | a restore gives up with k bytes hashed exactly when k is a multiple of 1024 below the recorded size and the read there is the first that does not go through, and fails |
| Ota.OneKilobyteAbandoned | app/ota/ota_downloader.c:181-191 | two kilobytes recorded, the first read and the second read failed: the first kilobyte stays in the sum |
| Ota.TornResumesNoFurther | app/ota/ota_downloader.c:85-92 | a record cut short anywhere is refused or resumes no further than what was being recorded, and above 0 only for the identity being recorded |
| Ota.TornKeepsFaithful | app/ota/ota_downloader.c:126-143 | a record cut short vouches for no byte the whole one would not |
| OtaStore.TornRecord | app/ota/ota_downloader.c:42-45 | the bytes of a record cut short, read over zeros, give the size its written low bytes are worth, and the identity whole once they reach the size |
| Ota.Downloader.Process | common/utils/src/utils_downloader.c:70-127 | one boot keeps a whole store backed and, for the announced image, faithful, wherever it is cut; a concluded download reports success exactly when the announced sum is that of the bytes its restore abandoned, those it restored, in terms of the store as the boot found it, and those it fetched, which are the stored file unless a write was short |
| Ota.Downloader.Turn | common/utils/src/utils_downloader.c:102-120 | after every turn the sum has absorbed exactly what was fetched, which without a short write is the downloaded prefix of the store, and the next boot would resume right there; a turn cut anywhere keeps every prefix a break point vouches for |
| Ota.Downloader.Download | common/utils/src/utils_downloader.c:102-120 | the loop ends with everything fetched and hashed, or with the status of the step that failed |
| Ota.Downloader.FetchAndSave | common/utils/src/utils_downloader.c:103-113 | the fetched bytes extend the stored prefix unless their write is short, and a cut while they are written keeps what the break point vouches for |
| Ota.Downloader.Start | common/utils/src/utils_downloader.c:81-100 | a run picks up exactly at the recorded size when the recorded identity is the announced one and no read of the restore fails, and at 0 otherwise; what was hashed by then is given exactly |
| Ota.Downloader.Resume | common/utils/src/utils_downloader.c:88-94 | the recorded identity decides between restoring and starting over |
| Ota.Downloader.BreakPointRestore | app/ota/ota_downloader.c:171-192 | restoring hashes exactly the stored prefix; when a read fails it starts over from 0 and leaves exactly the bytes before that read in the sum |
| Ota.Downloader.BreakPointSave | app/ota/ota_downloader.c:126-143 | the fetched bytes are counted and hashed before the progress is recorded; a cut leaves the old record or any first part of the new one, which vouches for no more than what is on the store |
| Ota.Downloader.BreakPointCheck | app/ota/ota_downloader.c:151-163 | passes exactly when the C strings for version and sum and the file size are the announced ones and the progress fits the file |
| Ota.Downloader.BreakPointInit | app/ota/ota_downloader.c:85-92 | the sum starts empty and the break point is what the file holds, over zeros where it is cut short |
| Ota.Downloader.DownloadRecv | app/ota/ota_downloader.c:246-254 | what arrives is the next stretch of what is served, at most a buffer of it |
| Ota.Downloader.DownloadSave | app/ota/ota_downloader.c:262-268 | the fetched bytes overwrite the file at the downloaded size; a power cut or a short write leaves a prefix of them |
| Ota.Downloader.Finish | app/ota/ota_downloader.c:277-316 | the report is success exactly when the sum is the announced one up to letter case, and a mismatch wipes the break point |
| Ota.KeepsFaithful | app/ota/ota_downloader.c:262-268 | writing image bytes at their own offset keeps every prefix a break point vouches for |
| OtaStore.Store.FirmwareWrite | app/ota/ota_firmware_save.c:113-130 | a write at an offset, of which a power cut may leave any prefix, and so may the file system while the program is told of success |
| OtaStore.Store.FirmwareRead | app/ota/ota_firmware_save.c:86-103 | inside the file the bytes at the offset; -1 only when the store fails |
| OtaStore.Store.BreakPointWrite | app/ota/ota_firmware_save.c:66-76 | the file holds the structure on return, or a first part of it after a short write, and after a power cut the old bytes or any first part of the structure, from none on |
| OtaStore.Store.BreakPointRead | app/ota/ota_firmware_save.c:43-57 | as many bytes as the file has, up to the size of the structure, replace those in memory |
| MqttDecode.EncodingIsInjective | common/mqtt_packet/src/mqtt_packet_serialize.c:260-458 | no two CONNECT, SUBSCRIBE or UNSUBSCRIBE requests share an encoding, even as the front of longer streams |
| MqttDecode.RequestDecodes | common/mqtt_packet/src/mqtt_packet_serialize.c:260-458 | a decoder written from sections 2.2, 3.1, 3.8 and 3.10 of MQTT 3.1.1 recovers every field and finds where the next packet starts, and takes the request exactly when its values are ones the standard allows |
| MqttDecode.ForbiddenRequests | common/mqtt_packet/src/mqtt_packet_serialize.c:169-423 | a will of QoS 3, the level of MQTT 3.1, a SUBSCRIBE with QoS 200 and one without filters are written and forbidden |
| MqttDecode.ConnectReads | common/mqtt_packet/src/mqtt_packet_serialize.c:169-298 | the fields of a CONNECT read back exactly when its strings fit, its will flag is 0 or 1, its level is known and no password stands without a user name |
| MqttDecode.SubscriptionsRead | common/mqtt_packet/src/mqtt_packet_serialize.c:420-423 | any list of filters and QoS values reads back in order exactly when every filter fits its length field |
| MqttDecode.FiltersRead | common/mqtt_packet/src/mqtt_packet_serialize.c:453-455 | any list of filters reads back in order exactly when every filter fits its length field |
| MqttDecode.PublishReads | common/mqtt_packet/src/mqtt_packet_serialize.c:346-371 | flags, topic, payload and, above QoS 0, the id read back exactly when the topic has 1 to 65535 bytes and a QoS above 0 keeps a bit |
| MqttDecode.ConnectDecodes | common/mqtt_packet/src/mqtt_packet_serialize.c:169-298 | a CONNECT is taken for what it was built from exactly when its options can be put in one, its level is that of MQTT 3.1.1, its will has QoS 0 to 2, an empty client id asks for a clean session, and its strings are text |
| MqttDecode.SubscriptionsDecode | common/mqtt_packet/src/mqtt_packet_serialize.c:420-423 | a SUBSCRIBE list is taken in order exactly when it is not empty, every filter is one and fits its length field, and every QoS byte is at most 2 |
| MqttDecode.FiltersDecode | common/mqtt_packet/src/mqtt_packet_serialize.c:453-455 | an UNSUBSCRIBE list is taken in order exactly when it is not empty and every filter is one and fits its length field |
| MqttDecode.PublishDecodes | common/mqtt_packet/src/mqtt_packet_serialize.c:346-371 | a PUBLISH is taken for what it was built from exactly when its topic is a name that fits its length field and its QoS is 1 or 2 with an id other than 0, or 0 and not marked a duplicate |
| MqttDecode.FrameTaken | common/mqtt_packet/src/mqtt_packet_serialize.c:108-122 | a packet with a remaining length up to 268435455 is cut out of any stream it stands in front of |
| MqttDecode.LengthTaken | common/mqtt_packet/src/mqtt_packet_deserialize.c:118-143 | a decoder that takes at most max bytes inverts the remaining-length encoder exactly when the encoding is that short |
| MqttWire.RemainingLengthDecodes | common/mqtt_packet/src/mqtt_packet_serialize.c:108-122 | the encoded digits end where they should and stand for the number, for every number |
| MqttWire.RemainingLengthIsMinimal | common/mqtt_packet/src/mqtt_packet_serialize.c:108-122 | no finished run of length bytes for the same number is shorter |
| MqttWire.WidthBound | common/mqtt_packet/src/mqtt_packet_serialize.c:108-122 | four bytes suffice exactly up to 268435455 |
| MqttSerialize.RemainingLengthSerialize | common/mqtt_packet/src/mqtt_packet_serialize.c:108-122 | the digit loop writes the encoding at the pointer and nothing else |
| MqttSerialize.PublishSerialize | common/mqtt_packet/src/mqtt_packet_serialize.c:346-371 | writes exactly the packet, or refuses a buffer short of the remaining length + 5; stays within buf_len exactly when the length takes four bytes or there is room for a fifth |
| MqttSerialize.ConnectSerialize | common/mqtt_packet/src/mqtt_packet_serialize.c:260-298 | the error of the first check that fails, with what was written until then, or exactly the packet; within buf_len exactly when the fixed header fits too |
| MqttSerialize.ConnectLengthIsExact | common/mqtt_packet/src/mqtt_packet_serialize.c:132-161 | the declared remaining length is the number of bytes after the fixed header, for every combination of options |
| MqttSerialize.ConnectCheckIsTooWeak | common/mqtt_packet/src/mqtt_packet_serialize.c:156 | twelve bytes pass the check for a CONNECT of fourteen |
| MqttSerialize.ConnectVariableHeader | common/mqtt_packet/src/mqtt_packet_serialize.c:169-199 | protocol name, level, flags and keep-alive as section 3.1.2 lays them out |
| MqttSerialize.ConnectPayload | common/mqtt_packet/src/mqtt_packet_serialize.c:280-295 | the payload fields in the order of section 3.1.3, each only when announced |
| MqttSerialize.SubscribeSerialize | common/mqtt_packet/src/mqtt_packet_serialize.c:404-426 | writes exactly the packet of any list of filters, or refuses a short buffer |
| MqttSerialize.SubscribeLengthIsExact | common/mqtt_packet/src/mqtt_packet_serialize.c:236-250 | the declared length of a SUBSCRIBE is the number of bytes after its fixed header |
| MqttSerialize.FiltersLengthSerialize | common/mqtt_packet/src/mqtt_packet_serialize.c:236-250 | sums the filters, refuses a short buffer without writing, or writes the length |
| MqttSerialize.UnsubscribeSerialize | common/mqtt_packet/src/mqtt_packet_serialize.c:438-458 | writes exactly the packet of any list of filters, or refuses a short buffer |
| MqttSerialize.UnsubscribeLengthIsExact | common/mqtt_packet/src/mqtt_packet_serialize.c:236-250 | the declared length of an UNSUBSCRIBE is the number of bytes after its fixed header |
| MqttSerialize.PubackSerialize | common/mqtt_packet/src/mqtt_packet_serialize.c:381-391 | four bytes with the id, never past buf_len, or refusal with nothing written |
| MqttDeserialize.PublishThereAndBack | common/mqtt_packet/src/mqtt_packet_deserialize.c:219-258 | what the serializer writes the deserializer reads: the same flags, topic, payload and, above QoS 0, id |
| MqttDeserialize.PublishDeserialize | common/mqtt_packet/src/mqtt_packet_deserialize.c:219-258 | for every buffer the result is given by the bytes: the error or the outside read of the length; for a whole packet a read outside, the type error for an empty topic, or the fields, with a payload length that is not negative exactly when the standard takes the packet, or its fields read but hold QoS 3, a duplicate of QoS 0, an id of 0 or a topic that is not a name, and negative exactly when the topic or the id overruns the packet inside the memory |
| MqttDeserialize.QosThreeIsAccepted | common/mqtt_packet/src/mqtt_packet_deserialize.c:219-258 | the header 0x36, both QoS bits set, is accepted with its id |
| MqttDeserialize.OverrunIsAccepted | common/mqtt_packet/src/mqtt_packet_deserialize.c:239-255 | remaining length 3 with topic length 9 is accepted with a payload length of -8 |
| MqttDeserialize.PublishAt | common/mqtt_packet/src/mqtt_packet_deserialize.c:239-255 | where the fields of a packet stand in the memory around it |
| MqttDeserialize.PublishVariableHeader | common/mqtt_packet/src/mqtt_packet_deserialize.c:239-255 | a read outside the memory exactly when the topic length or the id would not stand in it, the type error exactly for an empty topic, and otherwise acceptance with whatever payload length is left, negative exactly when a field overruns the packet |
| MqttDeserialize.RemainingLengthDeserialize | common/mqtt_packet/src/mqtt_packet_deserialize.c:118-143 | the value of the length bytes when the whole packet stands in the buffer, else the right error; reads outside only after padding that fills the buffer, with no effect on the result |
| MqttDeserialize.LengthOfFrame | common/mqtt_packet/src/mqtt_packet_deserialize.c:118-143 | a length is accepted exactly when the standard's decoder cuts a whole packet out of the buffer |
| MqttDeserialize.PubackDeserialize | common/mqtt_packet/src/mqtt_packet_deserialize.c:268-288 | the two bytes behind the length as the id, the length not being checked to be 2, or a read outside when they do not stand in the memory; a null write exactly for the first byte of a PUBLISH |
| MqttStream.Client.ReadPackets | services/common/mqtt_client/src/mqtt_client_yield.c:191-223 | on any stream of packets, n reads yield the packets in order, less those too long for the buffer, and leave the stream at the next boundary, however the network splits its reads, until one is not thrown away exactly; without failed reads that takes a packet that is too long with a body that is not, and more behind it; a prompt network gives exactly what Reads says |
| MqttStream.InStepExactly | services/common/mqtt_client/src/mqtt_client_yield.c:191-223 | on a prompt network n reads of any stream of packets stay in step all along exactly when none of the first n packets is too long with a body that is not and has a packet behind it |
| MqttStream.Derailed | services/common/mqtt_client/src/mqtt_client_yield.c:122-143 | the first such packet takes what its body is short of the buffer from the packets behind it, and the next read starts inside them |
| MqttStream.SkipsExactly | services/common/mqtt_client/src/mqtt_client_yield.c:206-214 | a too-long packet that stands whole in the stream goes alone exactly when its body has at least the size of the buffer or nothing stands behind it |
| MqttStream.OneByteMoreGoes | services/common/mqtt_client/src/mqtt_client_yield.c:122-143 | a body of 4 bytes with a buffer of 5: alone it goes exactly, in front of a PINGRESP it takes a byte of it and the next read fails |
| MqttStream.Client.ReadMqttPacket | services/common/mqtt_client/src/mqtt_client_yield.c:191-223 | success is the next whole packet of the stream and nothing more; nothing to read leaves the stream alone; on a prompt network the code and the bytes taken are exactly those of Prompt |
| MqttStream.Client.ReadPacketRemainingLen | services/common/mqtt_client/src/mqtt_client_yield.c:75-113 | this second decoder agrees with the standard's on every stream, and takes no byte more |
| MqttStream.Client.DiscardPacketForShortBuf | services/common/mqtt_client/src/mqtt_client_yield.c:122-143 | for any positive short reads, what goes is rem_len bytes or, when that is more, what the first read hands over |
| MqttStream.Client.ReadOrDiscard | services/common/mqtt_client/src/mqtt_client_yield.c:210-221 | reads the body behind the header, or skips it when the packet does not fit |
| MqttStream.Client.ReadPacketHeader | services/common/mqtt_client/src/mqtt_client_yield.c:47-64 | the first byte and its type, or nothing taken and the code for nothing to read |
| MqttStream.Client.ReadPacketPayload | services/common/mqtt_client/src/mqtt_client_yield.c:154-176 | the whole body behind the header, or a network error or a timeout |
| MqttStream.NextPacket | services/common/mqtt_client/src/mqtt_client_yield.c:191-223 | what a read finds at a packet boundary of any stream of packets |
| TopicFilter.IsTopicMatched | services/common/mqtt_client/src/mqtt_client_publish.c:146-167 | for every well-formed filter the scan answers yes exactly when the levels match, '+' taking one level that is not empty and '#' a remainder whose first level is not empty |
| TopicLevels.AcceptsIsSound | services/common/mqtt_client/src/mqtt_client_publish.c:146-167 | what it accepts matches by section 4.7.1 of MQTT 3.1.1 |
| TopicLevels.AcceptsExactly | services/common/mqtt_client/src/mqtt_client_publish.c:146-167 | it differs from section 4.7.1 exactly where a wildcard meets nothing or an empty level |
| TopicLevels.OnlyTheParentIsLost | services/common/mqtt_client/src/mqtt_client_publish.c:146-167 | for names without empty levels only the level above '#' is lost |
| TopicFilter.ParentAndEmptyLevelRefused | services/common/mqtt_client/src/mqtt_client_publish.c:146-167 | "a/#" does not cover "a" and "a/+" does not cover "a/", which section 4.7.1 allows |
| TopicFilter.LastOfLevel | services/common/mqtt_client/src/mqtt_client_publish.c:157-159 | the inner loop stops on the last character of the level |
| UtilsList.List.Process | common/utils/src/utils_list.c:291-326 | from either end, with a handler that may remove the current node or break, exactly the nodes whose values the pure traversal keeps stay, in their order, and the caller's data ends as it says |
| UtilsList.List.ProcessOne | common/utils/src/utils_list.c:313-323 | a node without a value goes, otherwise the handler decides |
| UtilsList.SweepFilters | common/utils/src/utils_list.c:291-326 | removing the current node on a condition leaves the filtered list in its order, from either end |
| UtilsList.VisitsEachOnce | common/utils/src/utils_list.c:310-324 | the handler is given each value once, in order, up to the first at which it breaks, and all of them if it breaks at none |
| UtilsList.TakingFirst | common/utils/src/utils_list.c:310-324 | a handler that removes its first match and breaks takes exactly that one |
| UtilsList.List.Push | common/utils/src/utils_list.c:196-232 | appends a new node, or refuses a missing value or a full list and changes nothing |
| UtilsList.List.Pop | common/utils/src/utils_list.c:240-267 | hands out the value of the first node and frees that node; nothing from an empty list |
| UtilsList.List.Remove | common/utils/src/utils_list.c:94-109 | unlinks and frees one node, both neighbours, head, tail and length staying consistent |
| UtilsList.List.Destroy | common/utils/src/utils_list.c:151-175 | frees every node once, in order, and looks at none it has freed |
| UtilsList.Create | common/utils/src/utils_list.c:118-144 | an empty list of the bound, or none when the bound is not positive |
| MqttPublish.Session | services/common/mqtt_client/src/mqtt_client_publish.c:252-397 | over any run of publishes, other draws, PUBACKs and timeout checks, every id returned is that of the draw its operation made; each of these publishes waits, was acknowledged by a later PUBACK with its id, or was timed out by a later check past its deadline, and only one of the three; a waiting one has seen no such check; and in a run of at most 65535 draws the first PUBACK with its id or check past its deadline decides, exactly; nothing else waits, and at most 20 do |
| MqttPublish.AckMoves | services/common/mqtt_client/src/mqtt_client_publish.c:362-385 | a PUBACK moves only a publish with its id, and in a run of at most 65535 draws every one that waits with it |
| MqttPublish.TickMoves | services/common/mqtt_client/src/mqtt_client_publish.c:392-397 | a timeout check moves exactly the waiting publishes past their deadline |
| MqttPublish.SameIdSamePublish | services/common/mqtt_client/src/mqtt_client_common.c:38-49 | in a run of at most 65535 draws an id belongs to one draw |
| MqttPublish.Client.WaitingIdsAreDistinct | services/common/mqtt_client/src/mqtt_client_publish.c:252-300 | waiting ids differ pairwise while fewer than 65535 ids were drawn since the oldest waiting one |
| MqttPublish.Client.Publish | services/common/mqtt_client/src/mqtt_client_publish.c:252-300 | the id drawn, behind the others in the wait list, or the error of the step that fails with the list as it was |
| MqttPublish.Client.PushPubInfo | services/common/mqtt_client/src/mqtt_client_publish.c:41-68 | queues the publish or refuses when 20 wait |
| MqttPublish.Client.RemovePubInfoFromList | services/common/mqtt_client/src/mqtt_client_publish.c:111-132 | takes only the oldest publish with the id |
| MqttPublish.Client.HandlePuback | services/common/mqtt_client/src/mqtt_client_publish.c:362-385 | the oldest waiting publish with the id becomes acknowledged, the others stay; the user hears of the id either way |
| MqttPublish.Client.CheckPubTimeout | services/common/mqtt_client/src/mqtt_client_publish.c:392-397 | exactly the publishes whose time is up leave, and their ids are reported in order |
| MqttPublish.TimeoutSweep | services/common/mqtt_client/src/mqtt_client_publish.c:79-100 | walking the list with the timeout handler marks and reports exactly the lapsed ones |
| MqttPublish.Client.GetNextPacketId | services/common/mqtt_client/src/mqtt_client_common.c:38-49 | the next id of the run of draws |
| PacketIds.DrawsAreDistinct | services/common/mqtt_client/src/mqtt_client_common.c:38-49 | ids lie in 1 to 65535, any 65535 consecutive draws differ and the next repeats the first, whatever the counter started at |
| RepeatRing.Ring.HandlePublish | services/common/mqtt_client/src/mqtt_client_publish.c:309-354 | over any run a QoS 1 message that parses is delivered exactly when its id is not among the last ten accepted, counting ten zeros before the first, and counts as accepted whether or not its PUBACK goes out; the code of the step that failed |
| RepeatRing.Ring.AddPacketIdToRepeatBuf | services/common/mqtt_client/src/mqtt_client_publish.c:233-240 | overwriting at the index keeps the ring the window of the last ten accepted ids |
| RepeatRing.Ring.GetPacketIdRepeatBuf | services/common/mqtt_client/src/mqtt_client_publish.c:216-225 | whether a slot holds the id |
| RepeatRing.AcceptedNeverRepeats | services/common/mqtt_client/src/mqtt_client_publish.c:233-240 | no accepted id repeats one of the ten before it, and 0 is not accepted before the zeros are gone |
| MqttSubscribe.Client.Subscribe | services/common/mqtt_client/src/mqtt_client_subscribe.c:298-358 | the table gains or replaces the filter, not ready unless no SUBACK is waited for, and a request waits; when the table is full or the request fails, the filter leaves the table and nothing waits |
| MqttSubscribe.Client.Unsubscribe | services/common/mqtt_client/src/mqtt_client_subscribe.c:421-478 | the filter leaves the table whatever becomes of the request; an unknown one is refused |
| MqttSubscribe.Client.HandleSuback | services/common/mqtt_client/src/mqtt_client_subscribe.c:366-412 | the first waiting request with the id is taken; its filter becomes ready, or leaves the table on 0x80 |
| MqttSubscribe.Client.HandleUnsuback | services/common/mqtt_client/src/mqtt_client_subscribe.c:486-509 | the first waiting request with the id is taken and the table stays |
| MqttSubscribe.Client.PopSubInfoFromList | services/common/mqtt_client/src/mqtt_client_subscribe.c:185-190 | the filter of the first waiting request with the id, which leaves the list |
| MqttSubscribe.Client.IsSubReady | services/common/mqtt_client/src/mqtt_client_subscribe.c:573-587 | a filter without a wildcard is ready exactly when the table has it and, unless no SUBACK is waited for, one with a code other than 0x80 was handled for it since its last subscribe |
| MqttSubscribe.Client.PushAndSend | services/common/mqtt_client/src/mqtt_client_subscribe.c:330-354 | the request waits exactly when it was serialized, queued and sent |
| MqttSubscribe.Client.AddSubHandleToArray | services/common/mqtt_client/src/mqtt_client_subscribe.c:232-262 | refines the update of a map of capacity ten |
| MqttSubscribe.Client.RemoveSubHandleFromArray | services/common/mqtt_client/src/mqtt_client_subscribe.c:200-222 | refines the removal from the map, and reports whether there was anything to remove |
| MqttSubscribe.Client.SetSubHandleStatusToArray | services/common/mqtt_client/src/mqtt_client_subscribe.c:271-288 | sets the status of the entry and of no other |
| MqttSubscribe.AfterAcknowledged | services/common/mqtt_client/src/mqtt_client_subscribe.c:389-400 | handling a SUBACK keeps every entry ready exactly when granted since its last subscribe |
| MqttSubscribe.AfterSubscribed | services/common/mqtt_client/src/mqtt_client_subscribe.c:314-326 | so does subscribing, whether the new entry stays or goes again |
| SubTable.TableSize | services/common/mqtt_client/src/mqtt_client_subscribe.c:232-262 | a table of slots without duplicates has one entry for each slot in use |
| SubTable.SlotFilled | services/common/mqtt_client/src/mqtt_client_subscribe.c:239-259 | writing a free slot, or the one that holds the filter, is the update of the map and brings no duplicate |
| SubTable.SlotsCleared | services/common/mqtt_client/src/mqtt_client_subscribe.c:207-219 | clearing slots is the removal from the map |
| SubTable.RemovesOne | services/common/mqtt_client/src/mqtt_client_subscribe.c:208-209 | only the named filter goes exactly when it has no wildcard or nothing else is there |
| SubTable.WildRemovesOthers | services/common/mqtt_client/src/mqtt_client_subscribe.c:208-209 | removing "a/#" empties a table that holds "b" |
| MqttLink.Client.Yield | services/common/mqtt_client/src/mqtt_client_yield.c:465-526 | every state a yield leaves is valid; while every attempt is rejected, and never with 1, it reports an attempt going on until the client has given up and the timeout from then on; with its turns late enough each makes one attempt, up to the 5 or 6; after giving up every later yield reports the timeout and attempts nothing |
| MqttLink.Client.GivesUp | services/common/mqtt_client/src/mqtt_client_yield.c:370-405 | after a disconnect with every attempt rejected, never with 1, the client has given up exactly after 6 attempts, or 5 when the first interval was above 1870 ms, with delays of 58280 to 117810 ms in all |
| MqttLink.Client.HandleReconnect | services/common/mqtt_client/src/mqtt_client_yield.c:370-405 | no attempt before the delay is over; a rejected one counts, and doubles and arms the delay until it passes 60000 ms |
| MqttLink.Client.HandleDisconnect | services/common/mqtt_client/src/mqtt_client_yield.c:333-362 | unconnected, not by hand, and with auto-connect the first delay of 1000 to 1990 ms armed |
| MqttLink.Client.SetReconnectWaitInterval | services/common/mqtt_client/src/mqtt_client_yield.c:317-326 | with auto-connect a random first delay, by tens of milliseconds |
| MqttLink.Client.KeepAlive | services/common/mqtt_client/src/mqtt_client_yield.c:413-454 | disconnects exactly when a ping is due and two went out with no answer since, or none of four sends of this one succeeds; at most two are ever outstanding |
| MqttLink.Client.CycleForRead | services/common/mqtt_client/src/mqtt_client_yield.c:250-310 | which packets count as an answer to the pings, and the code of each case |
| MqttLink.Client.Pingreq | services/common/mqtt_client/src/mqtt_client_connect.c:192-208 | fails exactly when four sends in a row fail |
| MqttLink.Client.Connect | services/common/mqtt_client/src/mqtt_client_connect.c:94-110 | an accepted connection forgets the pings of the last one; a rejected one leaves the back-off alone |
| MqttLink.Client.AttemptReconnect | services/common/mqtt_client/src/mqtt_client_connect.c:118-147 | connected exactly when accepted, and the code of the step that failed |
| MqttLink.Client.Disconnect | services/common/mqtt_client/src/mqtt_client_connect.c:155-183 | unconnected by hand when the DISCONNECT goes out, else as before |
| Backoff.GivesUpThen | services/common/mqtt_client/src/mqtt_client_yield.c:397-401 | the doubled interval passes the maximum exactly after 5 or 6 doublings, and the delays until then sum to 58280 to 117810 ms |
| Backoff.DelaysSum | services/common/mqtt_client/src/mqtt_client_yield.c:397-403 | n doubled delays come to the first times 2^n - 1 |
| Base64.DecodesWhatWasEncoded | common/cryptology/src/utils_base64.c:132-240 | any octets encoded, broken into lines anyhow, are accepted and decode to themselves wherever they fit |
| Base64.RoundTrip | common/cryptology/src/utils_base64.c:132-240 | decoding the encoding of any octets gives them back, and the encoding is well formed |
| Base64.EncodedAgain | common/cryptology/src/utils_base64.c:55-112 | a text of symbols and at most two pads is the encoding of what it decodes to exactly when the symbols come in fours and the bits of the last symbol that no octet needs are 0 |
| Base64.EncodingsAreCanonical | common/cryptology/src/utils_base64.c:132-189 | every encoding is such a text, and decodes to what was encoded |
| Base64.RemainderDropped | common/cryptology/src/utils_base64.c:219-235 | the symbols behind the last group of four change nothing |
| Base64.UnfinishedGroupIsLost | common/cryptology/src/utils_base64.c:55-112 | "QQ=" is accepted and decodes to nothing |
| Base64.LooseBitsAreLost | common/cryptology/src/utils_base64.c:55-112 | "QR==" is accepted and decodes to what "QQ==" is the encoding of |
| Base64.Encode | common/cryptology/src/utils_base64.c:132-189 | exactly the text of section 4 of RFC 4648 and a terminator, or the room needed; nothing else is written |
| Base64.FourSymbolsAre | common/cryptology/src/utils_base64.c:164-167 | the shifts, masks and table are the four 6-bit groups of 24 bits through Table 1 of the RFC |
| Base64.EncodedLength | common/cryptology/src/utils_base64.c:142-149 | four symbols for every three octets begun |
| Base64.LastSymbols | common/cryptology/src/utils_base64.c:170-183 | one or two octets at the end as the RFC pads them |
| Base64.Decode | common/cryptology/src/utils_base64.c:207-240 | accepted texts decode group by group to the octets of their symbols, less one for each pad, within the bound of the first pass, and these are what the text is the encoding of exactly when it is a text of the standard; the others leave the destination alone |
| Base64.CheckValid | common/cryptology/src/utils_base64.c:55-112 | accepts exactly the texts that, without their line breaks, are symbols and at most two pads, when the destination can hold the bound |
| Base64.DecodedLength | common/cryptology/src/utils_base64.c:207-240 | the second pass writes at most ((6n + 7) >> 3) less the pads, and exactly that when n is a multiple of 4 |
| Base64.BreaksAreIgnored | common/cryptology/src/utils_base64.c:61-77 | LF or CR LF, with or without spaces before it, put in anywhere but behind a space or a CR changes nothing |
| Base64.PassesAgree | common/cryptology/src/utils_base64.c:219-221 | the second pass looks at the same symbols as the first |
| Base64.SymbolRead | common/cryptology/src/utils_base64.c:223-234 | the 32-bit accumulator, never cleared, holds the waiting symbols, and only a fourth brings out octets |
| Base64.ShiftIn | common/cryptology/src/utils_base64.c:224 | what a 32-bit shift drops no longer belongs to the group |
| Base64.EncMapIs | common/cryptology/src/utils_base64.c:31-34 | the encoding table is Table 1 of RFC 4648 |
| Base64.DecMapIs | common/cryptology/src/utils_base64.c:36-42 | the decoding table inverts it, with 64 for the pad and 127 for everything else |
| Base64.BoundOf | common/cryptology/src/utils_base64.c:100-105 | the formula split against overflow is (6n + 7) >> 3 |

## Left out

- The HAL: sockets, TLS, timers, mutexes, logging, files and allocation failure. They are parameters or plans, as said above.
- The HTTP client and COS download behind `_ota_data_download_recv`: a receive is 0 to 1024 of the served bytes, or a failure.
- That an OTA download ends: a receive may hand over nothing for ever. Each boot ends here when its script of events does.
- Writes the file system holds back or brings out in another order: a write that returned is on the store when the power goes.
- The MD5 over mbedtls: the implementation for builds without TLS is the one modelled.
- Clearing, cloning and freeing digest contexts; null pointers passed where the source checks for them.
- Md5.P: the sixteen words of a block, loaded once and only read, are a sequence; the contexts, buffers, outputs and the SHA-1 schedule are updated in place.
- Overlap of source and destination buffers in Base64 and the serializers: sources are values.
- Bits joined by `|` in MQTT header and flag bytes are sums here, the fields being disjoint.
- The CONNACK, PINGRESP, SUBACK and UNSUBACK parsers and the PINGREQ and DISCONNECT serializers: the session takes what parsing or serializing returned as an input.
- The characters of a will topic beyond being UTF-8: section 3.1.3.2 of MQTT 3.1.1 asks for no more.
- The padding bytes inside the break point structure are 0 here; nothing reads them. Its numbers are little-endian.
- MqttStream.Network.Read: a failed read takes no bytes, as over TCP; a TLS read may fail with bytes lost, after which yield disconnects.
- The code of a short payload read is the TCP timeout; a build without TLS returns the TLS one, which yield treats alike.
- MqttLink.Client.Connect: a rejected attempt may have read packets that count as answers, which is a flag of the attempt; other effects of such packets are not modelled.
- MqttLink.Client.GivesUp: a refusal with CONNACK code 1, which equals the code for "reconnected", ends the claim: the code then tries again with no delay.
- The subscribe timeout, which frees a filter that the subscription table still points to: filters are values here.
- MqttSubscribe.Client.IsSubReady: for a wild filter it only says that the first slot answers; the lookup of user data has the same condition and is not modelled.
- Delivering a message to the first matching handler, and the rules for topics that start with `$`, which are the server's.
- Handlers that reenter the client or remove other nodes than the current one during a traversal.
- UtilsList.List.Process: the handler is a function that says whether to remove and to break; the source lets it call the removal itself.
- The data template, file management, gateway, log and system modules, and `sscanf` and `snprintf` formatting.
