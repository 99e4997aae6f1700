# ka9q-web core, modelled in Dafny

ka9q-web is a web front end for the ka9q-radio SDR receiver daemon. Each
browser tab opens a websocket; the server gives it a session with its own
SSRC (an even number starting at 1000). The session tunes an audio channel
at that SSRC and a spectrum channel at SSRC + 1 by sending TLV command
packets to radiod's control group. The server relays RTP audio packets to
the tab and re-packs radiod's spectrum status packets (the bin powers, with
the two halves of the FFT swapped) into frames for the browser.

This project models the parts of that program that decide what goes on the
wire and what the sessions hold:

- **Tlv** (`status.c`): the TLV encoders, as a `Writer` class over a byte
  array, and the decoders as functions. Integers are written big-endian
  with leading zero bytes dropped. Long values get a length header
  (`0x80 | n` followed by n length bytes). Floats and doubles are written
  as their bit patterns, and NaNs are not written at all. Sockets are
  written as address plus port.
- **Scan** (`decode_status.c`): the header reader shared by every scanner.
  It defines the field list of a record, with `get_ssrc` and `get_tag` as
  first-match lookups.
- **RadioStatus** (`decode_status.c`): `decode_radio_status`, with the
  frontend and channel structures as classes updated field by field.
- **Rtp** (`rtp.c`): `hton_rtp` and `ntoh_rtp`, plus the audio thread's
  checks on a received datagram.
- **Fnv** (`misc.c`): `fnv1hash`.
- **Sockaddr**, **Multicast** (`multicast.c`):
  - the socket address helpers;
  - `resolve_mcast` with name lookup as a parameter;
  - `make_maddr`;
  - `formatsock` with its move-to-front cache.
- **Sessions** (`ka9q-web.c`):
  - the session registry, a locked list searched by SSRC or websocket;
  - SSRC allocation;
  - the zoom table, `zoom_to`, `zoom` and `check_frequency`.
- **Commands** (`ka9q-web.c`): the command packets sent by `init_control`,
  `control_set_frequency`, `control_set_mode`, `stop_spectrum_stream`,
  `control_get_powers` and `control_poll`. Each packet is defined by its
  list of fields, and lemmas show that radiod's scanner reads the fields
  back.
- **Spectrum** (`ka9q-web.c`):
  - `extract_powers` and `extract_noise`;
  - the rotation of the bins into display order;
  - the status frame with its once-only description.
- **Websocket** (`ka9q-web.c`):
  - `websocket_cb`: how a message is split with `strtok`, which key does
    what to the session, and which commands go out;
  - `websocket_closed`.

The random command tags, the parsed numbers (`strtod`, `strtol`), the
receiver's sample rate and name lookup are parameters of the model.
Integers are unbounded in Dafny. The C types' wrap-around is written out
where the code depends on it: 32-bit SSRCs, 64-bit TLV integers, `int`
conversions and `size_t` lengths.

## Model

| member | source | states |
|---|---|---|
| Bytes.U32 | ka9q-web.c:194-209 | conversion to `uint32_t`: the result is below 2^32 and congruent to the input modulo 2^32, so it is the input when that already fits |
| Bytes.U16 | multicast.c:531-553 | conversion to `uint16_t` (a port number): below 2^16 and congruent to the input modulo 2^16, identity on values that fit |
| Bytes.U64 | status.c:84-86 | conversion to `uint64_t`, as `encode_int` widens an `int`: below 2^64 and congruent to the input modulo 2^64, identity on values that fit |
| Bytes.I32 | status.c:203-205 | conversion to a 32-bit `int`: the result lies in the signed range, agrees with the input modulo 2^32, and is the input itself when it fits |
| Bytes.I64 | status.c:182-188 | conversion to a 64-bit signed integer: in the signed range, congruent to the input modulo 2^64, and the input itself when it fits |
| Bytes.BigEndian | status.c:27-52 | the n-byte network-order form of a number has exactly n bytes |
| Bytes.ValueBigEndian | status.c:182-188 | reading back the n big-endian bytes of a number below 256^n gives the number |
| Bytes.BigEndianValue | status.c:27-52 | writing the value of a byte string back in as many bytes gives the same string |
| Bytes.ByteCountBounds | status.c:38-43 | the number of significant bytes of x is the least n with x < 256^n |
| Bytes.CString | status.c:174-180 | the C string in a buffer: a prefix with no NUL byte, followed in the buffer by a NUL when it stops early |
| Bytes.Strlcpy | decode_status.c:252-258 | `strlcpy` into a buffer of `size` bytes: the copy is a prefix of the source's C string, all of it when it fits, and exactly `size` − 1 bytes when it does not |
| Tlv.Writer.constructor | status.c:27-52 | a fresh buffer of the given capacity with nothing written |
| Tlv.Writer.Put | status.c:27-52 | `*(*buf)++ = b`: the byte is appended to what was written |
| Tlv.Writer.PutBytes | status.c:106-133 | the `memcpy` of a value: its bytes are appended in order |
| Tlv.Writer.EncodeInt64 | status.c:27-52 | `encode_int64` appends exactly `IntField(t, x)`, which is the type byte, the significant-byte count and the significant bytes. The return value is the length of that field |
| Tlv.Writer.EmitDigits | status.c:45-48 | the shifting loop of `encode_int64` appends the `len` low bytes of x, most significant first |
| Tlv.Writer.EncodeEol | status.c:54-60 | `encode_eol` appends the single EOL byte and returns 1 |
| Tlv.Writer.EncodeByte | status.c:62-74 | `encode_byte` appends the same field that `encode_int64` would write: 2 bytes for 0, 3 otherwise |
| Tlv.Writer.EncodeInt16 | status.c:76-78 | `encode_int16` appends the 64-bit field of its value, at most 4 bytes |
| Tlv.Writer.EncodeInt32 | status.c:80-82 | `encode_int32` appends the 64-bit field of its value, at most 6 bytes |
| Tlv.Writer.EncodeInt | status.c:84-86 | `encode_int` sign-extends to 64 bits. A negative value therefore takes 10 bytes, and a non-negative one at most 6 |
| Tlv.Writer.EncodeFloat | status.c:88-95 | `encode_float` writes nothing and returns 0 for a NaN, and otherwise appends the field of the 32-bit pattern |
| Tlv.Writer.EncodeDouble | status.c:97-104 | `encode_double` writes nothing for a NaN, and otherwise appends the field of the 64-bit pattern |
| Tlv.Writer.PutLength | status.c:111-128 | the length header of `encode_string` and `encode_vector`: one byte below 128, otherwise `0x80 + k` and then k big-endian bytes |
| Tlv.Writer.EncodeString | status.c:106-133 | `encode_string` appends the type byte, the length header and the bytes, and returns the total |
| Tlv.Writer.EncodeVector | status.c:135-172 | `encode_vector` appends the type byte, the length header for 4·n bytes and each float as a 4-byte big-endian word |
| Tlv.Writer.EncodeSocket | status.c:231-261 | `encode_socket` writes nothing for a family other than IPv4 or IPv6. Otherwise it appends type, length 6 or 10, the address (only the first 8 bytes for IPv6) and the port. The result is the value length |
| Tlv.IntField | status.c:27-52 | an integer field starts with its type, and its length byte (at most 8) counts the bytes that follow |
| Tlv.LengthHeader | status.c:111-128 | the length header is 1 to 5 bytes long: one byte exactly when n < 128, otherwise it starts with `0x80 + (count of length bytes)` |
| Tlv.SocketField | status.c:231-261 | the socket field is empty exactly for an unsupported family; it is 8 bytes with length 6 for IPv4 and 12 bytes with length 10 for IPv6 |
| Tlv.DecodeInt64 | status.c:182-188 | `decode_int64` yields the big-endian value of the bytes modulo 2^64, whatever their number |
| Tlv.Decode32 | status.c:189-191 | `decode_int32` is the value modulo 2^32, and the exact value for at most 4 bytes |
| Tlv.Decode16 | status.c:192-194 | `decode_int16` is the value modulo 2^16 |
| Tlv.Decode8 | status.c:196-198 | `decode_int8` is the value modulo 256, i.e. the last byte |
| Tlv.DecodeBool | status.c:199-201 | `decode_bool` keeps only the low 64 bits, so it is true exactly when one of the last 8 bytes is non-zero (for a value of at most 8 bytes: when any byte is) |
| Tlv.LowBytesNonZero | status.c:199-201 | the 64-bit accumulation is non-zero exactly when one of the last 8 bytes is; earlier bytes are shifted out |
| Tlv.DecodeInt | status.c:203-205 | `decode_int` is the signed 32-bit number congruent to the value modulo 2^32 |
| Tlv.DecodeString | status.c:174-180 | `decode_string` returns a copy of the bytes followed by a NUL |
| Tlv.DecodeFloat | status.c:207-217 | `decode_float`: 0 for an empty value, the 32-bit pattern for 1 to 4 bytes, a double narrowed to float for exactly 8 bytes, and the low 32 bits of the value for any other length |
| Tlv.DecodeDouble | status.c:219-229 | `decode_double`: 0 for an empty value, a float widened for exactly 4 bytes, otherwise the value's low 64 bits as the pattern |
| Tlv.DecodeSocket | status.c:263-279 | `decode_socket` accepts exactly 6 or 10 bytes. It writes the family, the port from the last two bytes, and the address bytes before them: all 4 of an IPv4 address, the first 8 of an IPv6 one |
| Tlv.IntFieldShape | status.c:27-52 | the field of 0 is `[t, 0]`; otherwise the length byte is 1–8, the first value byte is non-zero, and the value bytes read back to x |
| Tlv.IntField300 | status.c:27-52 | the field of 300 is `[t, 2, 0x01, 0x2C]` |
| Tlv.NegativeIntWidth | status.c:84-86 | every negative `int` is written as a full 10-byte field |
| Tlv.IntRoundTrip | status.c:182-201 | each integer decoder reads back what `encode_int64` wrote for a value in its range; `decode_bool` reads back whether it was non-zero |
| Tlv.SignedIntRoundTrip | status.c:84-86 | `decode_int` reads back every `int` written by `encode_int`, negative ones included |
| Tlv.FloatRoundTrip | status.c:207-217 | `decode_float` reads back the bit pattern of every non-NaN float written by `encode_float` |
| Tlv.DoubleRoundTrip | status.c:219-229 | `decode_double` reads back a double written by `encode_double`. The exception is a pattern that shrinks to exactly 4 bytes, which is read as a float |
| Tlv.SocketRoundTrip | status.c:263-279 | `decode_socket` reads back what `encode_socket` sent: the family and port, the whole IPv4 address, and the first 8 bytes of an IPv6 one |
| Tlv.WordsAt | status.c:135-172 | word k of an encoded vector is the k-th float's 4 bytes, and reads back to it |
| Scan.HeaderAt | decode_status.c:9-25 | the header at p is the EOL end marker exactly when the byte is EOL. Otherwise it is a field whose value lies inside the buffer, or an overrun |
| Scan.FieldsStep | decode_status.c:8-25 | the field list from p is the field at p followed by the field list after its value |
| Scan.FirstValueFinds | decode_status.c:322-330 | the first-match lookup finds nothing exactly when no field has the kind; otherwise it returns the value of the first such field |
| Scan.ReadFieldHeader | decode_status.c:9-25 | the header-reading loop (type, length, long-length bytes, bound check) computes `HeaderAt` |
| Scan.FindField | decode_status.c:300-335 | the scanning loop returns the value of the first field of the kind, or none |
| Scan.GetSsrc | decode_status.c:300-335 | `get_ssrc` is the 32-bit value of the first OUTPUT_SSRC field, and 0 when there is none |
| Scan.GetTag | decode_status.c:337-372 | `get_tag` is the 32-bit value of the first COMMAND_TAG field, and 0 when there is none |
| Scan.Encoded | status.c:106-133 | a field written as type, length header and value has exactly that many bytes |
| Scan.HeaderOfEncoded | decode_status.c:9-25 | the scanner reads back the header of a field as it was written. A field with nothing after it is an overrun, because the bound check is `>=` |
| Scan.FieldsCons | decode_status.c:8-25 | a written field followed by more bytes scans as that field followed by the scan of the rest |
| Scan.FieldsEol | decode_status.c:11-12 | a record that starts with EOL has no fields |
| Scan.LastFieldDropped | decode_status.c:23-24 | a field that ends exactly at the end of the buffer is not read. With EOL after it, it is read |
| Scan.IntFieldEncoded | status.c:27-52 | an integer field is a written field in the general sense |
| Scan.SocketFieldEncoded | status.c:231-261 | so is a socket field |
| Scan.ExampleFields | decode_status.c:300-372 | a concrete record with COMMAND_TAG 1 and OUTPUT_SSRC 1000 scans as those two fields |
| Scan.SsrcExample | decode_status.c:300-372 | in that record the first OUTPUT_SSRC value reads 1000 and the first COMMAND_TAG value reads 1 |
| RadioStatus.ApplyField | decode_status.c:26-292 | one pass of the switch changes the frontend and the channel exactly as the field's case says |
| RadioStatus.ApplyFrontendField | decode_status.c:26-292 | the cases that write `frontend` change it as `ApplyFrontend` says |
| RadioStatus.ApplyChannelField | decode_status.c:26-292 | the cases that write `channel` change it as `ApplyChannel` says |
| RadioStatus.ApplyOutputField | decode_status.c:39-282 | the cases that write `channel->output` change only that part of the channel |
| RadioStatus.DecodeRadioStatus | decode_status.c:4-298 | a NULL argument gives -1 and changes nothing. Otherwise the result is 0, and the frontend and channel are what applying the record's fields in order makes of them |
| RadioStatus.UntrackedKindSkipped | decode_status.c:290-291 | a field of a kind with no case changes nothing |
| RadioStatus.GpsTimeSetsBoth | decode_status.c:45-48 | GPS_TIME sets the channel clock time and the frontend timestamp to the same value |
| RadioStatus.StringFieldsTruncated | decode_status.c:32-258 | PRESET and DESCRIPTION keep a prefix of the value's C string: all of it when shorter than 32 or 128 bytes, and exactly 31 or 127 bytes otherwise; a short NUL-free preset is copied whole |
| RadioStatus.ApplyIdempotent | decode_status.c:26-292 | applying the same field twice is the same as applying it once |
| RadioStatus.LastWriteWins | decode_status.c:26-292 | a later field of the same kind overrides an earlier one, for the socket kinds too when the later value is one `decode_socket` accepts |
| RadioStatus.SocketFieldsStored | decode_status.c:42-66 | each socket field stores what `decode_socket` writes in its own member, leaves the member as it was for a length other than 6 or 10, and leaves the other output socket alone |
| RadioStatus.CounterTargets | decode_status.c:67-153 | OUTPUT_SSRC, COMMAND_TAG and OUTPUT_DATA_PACKETS land in the SSRC, the tag and the packet count |
| RadioStatus.StatusRoundTrip | decode_status.c:4-298 | a record holding one encoded SSRC, tag or packet count decodes to that value |
| Rtp.HeaderBytes | rtp.c:29-38 | the header is 12 bytes plus 4 per CSRC, counting only the low 4 bits of `cc` |
| Rtp.HtonRtp | rtp.c:29-38 | `hton_rtp` appends exactly the header's bytes |
| Rtp.ParseHeader | rtp.c:12-27 | the parsed count is below 16, the type below 128, the sequence below 2^16, and the data starts after the CSRCs |
| Rtp.NtohRtp | rtp.c:12-27 | `ntoh_rtp` with its CSRC loop computes `ParseHeader` |
| Rtp.Normalized | rtp.c:29-38 | the header as it reads back: version 2, `cc` and type masked, every other field kept |
| Rtp.FirstWordFields | rtp.c:31-33 | each field of the header's first word is where `ntoh_rtp` extracts it |
| Rtp.RoundTrip | rtp.c:12-38 | `ntoh_rtp` reads back what `hton_rtp` wrote, up to normalisation, and the data starts right after the header |
| Rtp.ExtensionSkipped | rtp.c:25 | with the extension bit set, the header extension is skipped by its word count |
| Rtp.ReceiveAsWritten | ka9q-web.c:632-645 | the audio thread's checks with `size_t` arithmetic: a datagram no longer than 12 bytes is skipped |
| Rtp.ReceiveSound | ka9q-web.c:632-645 | with a signed length, a datagram is accepted exactly when its payload after padding is non-empty; the payload then lies inside the datagram and the pad flag is cleared |
| Rtp.ReceiveAgrees | ka9q-web.c:632-645 | whenever the signed check accepts a datagram, the code as written accepts it with the same packet |
| Rtp.ShortDatagramAccepted | ka9q-web.c:636-645 | a 13-byte datagram announcing one CSRC is accepted as written with a payload length of 2^64 − 3, and rejected by the signed check |
| Fnv.Fnv1Hash | misc.c:82-89 | the loop computes the FNV-1 hash of the first `length` bytes |
| Fnv.Round | misc.c:85-86 | one round multiplies by the prime and then XORs the byte |
| Fnv.HashEmpty | misc.c:82-89 | a length of 0 or less yields the offset basis 0x811c9dc5 |
| Fnv.FoldAppend | misc.c:84-87 | hashing a concatenation continues from the hash of the first part |
| Fnv.HashPrefixOnly | misc.c:82-89 | only the first `length` bytes matter |
| Fnv.HashExtend | misc.c:84-87 | one more byte is one more round |
| Fnv.SingleByteExample | misc.c:82-89 | the hash of "a" is 0x050c5d7e (multiply first), not the XOR-first 0xe40c292c |
| Sockaddr.AddressMatch | multicast.c:475-502 | -1 exactly when a pointer is NULL; 1 exactly when both are the same address of the same family; otherwise 0 |
| Sockaddr.GetPortNumber | multicast.c:506-527 | -1 exactly for NULL or an unsupported family; otherwise the socket's own port, below 2^16 |
| Sockaddr.WithPort | multicast.c:531-553 | setting the port keeps the family and address and stores the port truncated to 16 bits |
| Sockaddr.IsMulticast | multicast.c:916-939 | multicast exactly for IPv4 224.0.0.0/4 and IPv6 ff00::/8 |
| Sockaddr.SetPortNumber | multicast.c:531-553 | -1 for NULL or an unsupported family, with nothing changed; otherwise 0 and the port set |
| Sockaddr.SetPort | multicast.c:826-845 | -1 for an unsupported family; otherwise 0 and the port set (truncated to 16 bits) |
| Sockaddr.GetAfterSet | multicast.c:506-553 | the port read after setting it is the port set, and the address still matches the original |
| Sockaddr.AddressMatchSymmetric | multicast.c:475-502 | address matching is symmetric and reflexive on supported families |
| Multicast.Truncate | multicast.c:279 | `strlcpy` into a buffer of n + 1 bytes keeps a prefix: all of a string of at most n characters, and exactly n of a longer one |
| Multicast.LastIndex | multicast.c:282 | `strrchr` finds the last occurrence, or none exactly when the character is absent |
| Multicast.CutLast | multicast.c:282-286 | cutting at the last separator splits the string into two parts that re-join to it; the part after has no separator |
| Multicast.CutJoined | multicast.c:282-286 | cutting a joined string at the separator gives back its parts |
| Multicast.SplitTarget | multicast.c:279-297 | `host[:port][,iface]` is split into parts of the right shape that re-join to the input |
| Multicast.SplitUnsplit | multicast.c:279-297 | splitting is the inverse of joining for well-shaped parts |
| Multicast.FullHost | multicast.c:302-305 | a host name without a dot gets `.local` appended; one with a dot is kept |
| Multicast.ResolveMcast | multicast.c:274-355 | a NULL or empty group or a NULL socket gives -1 and changes nothing. Otherwise it returns 0, the interface after `,` truncated to the caller's length, and the looked-up address of the full host name, which gets the default port when none was given |
| Multicast.MaddrBits | multicast.c:786-797 | the address is in 239.0.0.0/8, never in the 239.0.0/24 or 239.128.0/24 blocks, and is the hash's low 24 bits when those already avoid them |
| Multicast.MakeMaddrScoped | multicast.c:786-797 | `make_maddr` always yields an administratively scoped multicast address (first octet 239) outside the two reserved blocks |
| Multicast.FindEntry | multicast.c:420-438 | the cache lookup finds the first entry with the same address and port, or none exactly when no entry matches |
| Multicast.FormatCache.constructor | multicast.c:395 | the cache starts empty |
| Multicast.FormatCache.Format | multicast.c:401-472 | NULL gives "(NULL)" and an unsupported family gives NULL, both leaving the cache alone. A cached address returns the cached text and moves that entry to the front. A new one is formatted and put at the front |
| Multicast.MoveToFrontFound | multicast.c:426-436 | moving the hit to the front keeps the same entries and makes the next lookup hit at the front |
| Multicast.NewEntryFound | multicast.c:464-471 | a freshly inserted entry is found at the front |
| Multicast.SecondLookupHits | multicast.c:401-472 | after any call on an address, the next call finds it at the front without reordering, and no entry is lost |
| Sessions.HalfOf | ka9q-web.c:239-241 | C division of an `int` by 2, truncating toward zero |
| Sessions.ZoomLevel | ka9q-web.c:269-279 | `zoom_to` clamps the level into the table and raises 0 to 1 when the sample rate is at most 64.8 MHz |
| Sessions.ZoomTableShape | ka9q-web.c:250-267 | the zoom table's bin widths strictly decrease and every level has 1620 bins |
| Sessions.ZoomMonotone | ka9q-web.c:269-286 | zooming in never widens the bins and zooming out never narrows them |
| Sessions.HalfSpan | ka9q-web.c:231-232 | half the displayed span, `(bin_width*bins)/2`, fits in an `int` |
| Sessions.CheckedCenter | ka9q-web.c:228-243 | `check_frequency`'s centre is a 32-bit value |
| Sessions.CheckedIsPlain | ka9q-web.c:228-243 | when nothing overflows, the checked centre is the plain arithmetic of the code |
| Sessions.SpanInside | ka9q-web.c:238-242 | after the check the span lies within 0 .. samprate/2 when it fits there |
| Sessions.FrequencyShown | ka9q-web.c:228-243 | a tuned frequency that can be shown lies inside the span after the check |
| Sessions.CheckIdempotent | ka9q-web.c:228-243 | checking an already checked centre changes nothing |
| Sessions.Recentre | ka9q-web.c:231-242 | the recentring code as statements computes the checked centre |
| Sessions.Session.constructor | ka9q-web.c:575-589 | a new session: spectrum on, audio off, 10 MHz tuned, 16.2 MHz centre, 1620 bins of 20 kHz, zoom level 1, preset "am" |
| Sessions.Session.ZoomTo | ka9q-web.c:269-282 | `zoom_to` sets the index to the clamped level and the bin width and count from the table, changing nothing else |
| Sessions.Session.Zoom | ka9q-web.c:284-286 | `zoom` is `zoom_to` of the current index plus the shift |
| Sessions.Session.CheckFrequency | ka9q-web.c:228-243 | `check_frequency` sets the centre to the checked centre and changes nothing else |
| Sessions.FindSsrc | ka9q-web.c:194-209 | the search finds the first session with the SSRC, or none exactly when no session has it |
| Sessions.FindWs | ka9q-web.c:176-191 | the search finds the first session on the websocket, or none exactly when there is none |
| Sessions.Registry.constructor | ka9q-web.c:137-139 | the registry starts empty and unlocked |
| Sessions.Registry.AddSession | ka9q-web.c:144-156 | `add_session` puts the session at the head of the list and counts it |
| Sessions.Registry.DeleteSession | ka9q-web.c:158-173 | `delete_session` unlinks exactly that session, keeps the order of the rest, decrements the count and releases the lock |
| Sessions.Registry.Unlock | ka9q-web.c:418 | releasing the lock leaves the list alone |
| Sessions.Registry.FindSessionFromSsrc | ka9q-web.c:194-209 | returns the first session with the SSRC, compared as 32-bit values, and leaves the lock held exactly when it found one |
| Sessions.Registry.FindSessionFromWebsocket | ka9q-web.c:176-191 | returns the first session on the websocket and leaves the lock held exactly when it found one |
| Sessions.Registry.AllocateSsrc | ka9q-web.c:560-574 | the new SSRC is the first of 1000, 1002, … not in use; it is never one a session already has |
| Sessions.Pigeonhole | ka9q-web.c:566-573 | n SSRCs cannot cover all of the n + 1 candidates, so the search always ends on a free one |
| Sessions.AllTakenThenFree | ka9q-web.c:566-573 | when the first n candidates are all taken, candidate n is free |
| Commands.Encode | ka9q-web.c:711-719 | the fields of a command encode to nothing exactly when there are none |
| Commands.Command | ka9q-web.c:711-719 | a command packet starts with the CMD byte and ends with EOL |
| Commands.IntEntry | status.c:84-86 | an `encode_int` field encodes the sign-extended 32-bit value |
| Commands.DoubleEntry | status.c:97-104 | an `encode_double` field is absent for NaN and the 64-bit pattern otherwise |
| Commands.StringEntry | status.c:106-133 | an `encode_string` field is the type, length header and bytes |
| Commands.EncodeAppend | ka9q-web.c:711-719 | encoding a concatenation of fields concatenates their encodings |
| Commands.RecordScan | decode_status.c:4-298 | radiod's scanner reads back every field of a command once EOL follows |
| Commands.ScanCommand | decode_status.c:4-298 | a whole command, after its CMD byte, scans back to its fields |
| Commands.IntEntryReads | status.c:84-86 | an `encode_int` value reads back as the 32-bit value, both unsigned and signed |
| Commands.PowersRequestReads | ka9q-web.c:814-832 | the spectrum request reads back with SSRC + 1, the tag, SPECT_DEMOD and the bin count |
| Commands.StopRequestReads | ka9q-web.c:791-800 | the stop request reads back with SSRC + 1, the tag, SPECT_DEMOD and a zero (empty) frequency |
| Commands.PollRequestReads | ka9q-web.c:834-843 | the poll carries the tag first and then the channel's own SSRC |
| Commands.TuneRequestReads | ka9q-web.c:754-761 | the tune command carries the SSRC and tag, and a frequency field unless the frequency is NaN |
| Commands.ModeRequestReads | ka9q-web.c:775-780 | the mode command carries the preset text, the SSRC and the tag |
| Commands.AudioStartReads | ka9q-web.c:711-719 | the first `init_control` packet tunes the audio SSRC to 10 MHz with preset "am" |
| Commands.SpectrumStartReads | ka9q-web.c:727-734 | the second `init_control` packet tunes SSRC + 1 to 10 MHz |
| Commands.PutInt | status.c:84-86 | appending an `encode_int` field extends the command's field list by that field |
| Commands.PutDouble | status.c:97-104 | the same for `encode_double` |
| Commands.PutFloat | status.c:88-95 | the same for `encode_float` |
| Commands.PutString | status.c:106-133 | the same for `encode_string` |
| Commands.StartCommand | ka9q-web.c:710-712 | a command buffer starts with the CMD byte |
| Commands.FinishCommand | ka9q-web.c:719-720 | `encode_eol` completes the command of the fields written |
| Commands.InitControl | ka9q-web.c:705-747 | `init_control` sends the audio start and then the spectrum start, each with its own tag |
| Commands.ControlSetFrequency | ka9q-web.c:749-769 | an empty text sends nothing and changes nothing; otherwise it sets the frequency and sends the tune command, changing no other field |
| Commands.ControlSetMode | ka9q-web.c:771-789 | an empty text sends nothing; otherwise it sends the mode command and stores the preset truncated by `strlcpy`, changing no other field |
| Commands.StopSpectrumStream | ka9q-web.c:791-812 | `stop_spectrum_stream` sends the same stop command three times |
| Commands.StopCommand | ka9q-web.c:791-801 | the stop command's fields |
| Commands.ControlGetPowers | ka9q-web.c:814-832 | `control_get_powers` sends the spectrum request |
| Commands.ControlPoll | ka9q-web.c:834-850 | `control_poll` sends the poll |
| Spectrum.Bins | ka9q-web.c:918-925 | bin i is the float in bytes 4i..4i+4 of the value |
| Spectrum.Overwrite | ka9q-web.c:918-925 | storing the bins keeps the array's length |
| Spectrum.ExtractPowers | ka9q-web.c:852-968 | `extract_powers` returns the code of the field walk and leaves the time, frequency, bin width, IF power and power array where the walk leaves them |
| Spectrum.FillBins | ka9q-web.c:918-925 | the decoding loop overwrites the first `count` powers with the bins and keeps the rest |
| Spectrum.Turn | ka9q-web.c:861-946 | one pass of the loop reads the field header at `cp`: it stops with the code the walk returns, ends the loop where the walk finishes, or moves to a later index from which the rest of the walk is the same; outputs and power array are left as the walk leaves them |
| Spectrum.SwitchOnKind | ka9q-web.c:880-944 | the switch returns early exactly when the field's effect is a return, with its code and the outputs and power array untouched; otherwise the outputs, counters and power array become the effect's and `cp` moves by the BIN_DATA loop's advance |
| Spectrum.WalkErrors | ka9q-web.c:886-911 | an early return is always -1, -2 or -3 |
| Spectrum.WalkKeepsCount | ka9q-web.c:908-911 | a bin count once set never exceeds the caller's array |
| Spectrum.ResultCodes | ka9q-web.c:947-967 | the result is -1, -2 or -3, or a count equal to both BIN_DATA's and BIN_COUNT's and at most the array size and 1620 |
| Spectrum.NoBinDataRejected | ka9q-web.c:949-957 | a record without BIN_DATA is rejected |
| Spectrum.NoBinsKeepUnset | ka9q-web.c:858 | without BIN_DATA the count keeps its sentinel |
| Spectrum.WrongSsrcRejected | ka9q-web.c:886-889 | a first field with another SSRC gives -1 at once |
| Spectrum.NotSpectrumRejected | ka9q-web.c:890-896 | a first field with another demodulator gives -3 at once |
| Spectrum.TooManyBinsRejected | ka9q-web.c:908-911 | more bins than the array holds gives -2 at once |
| Spectrum.CountThenBins | ka9q-web.c:852-968 | BIN_COUNT c followed by c bins returns c with the bins stored in order |
| Spectrum.BinDataLast | ka9q-web.c:908-946 | a final BIN_DATA field stores its bins and ends the walk |
| Spectrum.BinsFirstRejected | ka9q-web.c:908-967 | a record with BIN_DATA before BIN_COUNT is rejected as written, yet yields its one bin with a single advance |
| Spectrum.WalkOnceVisitsFields | ka9q-web.c:861-946 | with one advance per field the scan visits exactly the record's fields in order |
| Spectrum.LastValueFinds | ka9q-web.c:995-997 | the last-match lookup finds nothing exactly when no field has the kind, and otherwise the last such field |
| Spectrum.NoiseIsLast | ka9q-web.c:970-1006 | the noise density is decoded from the last NOISE_DENSITY field, or kept when there is none |
| Spectrum.ExtractNoise | ka9q-web.c:970-1006 | `extract_noise` returns 0 and the noise density of the last NOISE_DENSITY field |
| Spectrum.RotatedBy | ka9q-web.c:1175-1185 | rotation keeps the length |
| Spectrum.RotatedIndex | ka9q-web.c:1175-1185 | output bin k is input bin (npower/2 + k) mod npower |
| Spectrum.RotatedPermutes | ka9q-web.c:1175-1185 | the rotation is a permutation of the bins |
| Spectrum.RotateBack | ka9q-web.c:1175-1185 | rotating by the rest of the length undoes it |
| Spectrum.RotateBins | ka9q-web.c:1175-1185 | the two loops emit the converted bins from the middle to the end and then from the start to the middle |
| Spectrum.FloatField | status.c:88-95 | a float field is empty exactly for a NaN |
| Spectrum.StatusHeader | ka9q-web.c:1295-1302 | the status frame's RTP header is well-formed |
| Spectrum.PowerFields | ka9q-web.c:1305-1307 | the three power fields take at most 18 bytes |
| Spectrum.PutPowerFields | ka9q-web.c:1305-1307 | the baseband power and filter edges are appended in order |
| Spectrum.PutFloatField | status.c:88-95 | one float field is appended and the room shrinks by its size |
| Spectrum.StatusFrame | ka9q-web.c:1295-1314 | the frame is the RTP header and the power fields, plus the description on the first frame only; afterwards `once` is set and nothing else in the session changes |
| Spectrum.PutDescription | ka9q-web.c:1308-1313 | the description is appended as a string field |
| Websocket.ReadLimitAsWritten | ka9q-web.c:303-305 | the clamp as written never raises the length and leaves lengths up to 1620 alone |
| Websocket.TerminatorPastEnd | ka9q-web.c:303-318 | a length of exactly 1620 is kept, so `tmp[len] = 0` writes one past the buffer; every other length stays inside |
| Websocket.ReadLimit | ka9q-web.c:303-318 | the corrected clamp always leaves room for the terminator and differs from the code only at 1620 |
| Websocket.SkipColons | ka9q-web.c:323 | `strtok` skips leading delimiters up to the first non-colon |
| Websocket.TokenEnd | ka9q-web.c:323 | a token runs to the next colon or NUL |
| Websocket.Strtok | ka9q-web.c:323-394 | `strtok` finds a token starting at a non-delimiter, changes nothing before it, and changes nothing when there is none |
| Websocket.StringAt | ka9q-web.c:358 | the C string at `&tmp[i]` lies within the buffer |
| Websocket.Parse | ka9q-web.c:323-414 | the text argument of F, M or a zoom level is shorter than the message |
| Websocket.ParseKey | ka9q-web.c:324-414 | the key's argument text is taken at `&tmp[2]` |
| Websocket.ParseAudio | ka9q-web.c:347-355 | the A key is either an audio request or a NULL dereference |
| Websocket.ParseZoom | ka9q-web.c:379-414 | the zoom level text is taken at `&tmp[2]` |
| Websocket.ViewOf | ka9q-web.c:56-84 | the view carries the session's frequency, centre and zoom index |
| Websocket.TunedView | ka9q-web.c:356-372 | the F key sets the frequency and keeps the session valid |
| Websocket.ZoomedView | ka9q-web.c:269-286 | a zoom sets the clamped index and the table's width and count, keeping the frequency |
| Websocket.CentredView | ka9q-web.c:392-402 | `Z:c` keeps the session valid |
| Websocket.Respond | ka9q-web.c:324-414 | every request keeps the session's fields within their C types |
| Websocket.RespondScope | ka9q-web.c:324-414 | only S replies (with the SSRC) and starts the spectrum thread. Only F with text and M send commands. Only A changes the audio flag, only F the frequency and only M the preset. The spectrum flag and `once` never change |
| Websocket.ClosedSent | ka9q-web.c:211-226 | closing sends one tune command, plus three stops when the spectrum was on |
| Websocket.TuneKey | ka9q-web.c:356-373 | the F branch leaves the session as `TunedView` and sends `TuneSent` |
| Websocket.ModeKey | ka9q-web.c:374-378 | the M branch leaves the session as `ModeView` and sends the mode command and a poll |
| Websocket.ZoomKey | ka9q-web.c:381-391 | `Z:+` and `Z:-` zoom by one level and check the frequency |
| Websocket.ZoomToKey | ka9q-web.c:404-412 | a zoom level zooms to it and checks the frequency |
| Websocket.SendingKey | ka9q-web.c:356-378 | the F and M branches do what `Respond` says |
| Websocket.ZoomingKey | ka9q-web.c:379-414 | the zoom branches do what `Respond` says |
| Websocket.LocalKey | ka9q-web.c:324-414 | the S and A branches, `Z:c` and the ignored keys do what `Respond` says |
| Websocket.Dispatch | ka9q-web.c:324-416 | the key switch does what `Respond` says for every request |
| Websocket.WebsocketClosed | ka9q-web.c:211-226 | `websocket_closed` tunes to 0 and turns audio and spectrum off, sending `ClosedSent` |
| Websocket.CloseSession | ka9q-web.c:297-300 | closing then deleting unlinks exactly the session, keeps every other one in its order and releases the lock |
| Websocket.WebsocketCb | ka9q-web.c:288-421 | An unknown websocket needs more data. A negative length or a failed read closes the session and the connection, unlinking exactly that session from the list. A NULL token dereference is a crash, with the lock still held. Otherwise the session changes as `Respond` says and no other session changes |
| Bytes.CStringTerminated | ka9q-web.c:318 | adding the terminator does not change the C string |
| Websocket.TokenIs | ka9q-web.c:323 | a token that ends at a colon is cut there with a NUL and the scan resumes after it |
| Websocket.KeyCut | ka9q-web.c:323 | `k:rest` yields the one-character token k, and `&tmp[2]` is the C string of rest |
| Websocket.ParseTune | ka9q-web.c:356-358 | `F:text` and `f:text` tune to the C string of the text |
| Websocket.ParseMode | ka9q-web.c:374-376 | `M:text` and `m:text` request the mode in the text |
| Websocket.ParseReportSsrc | ka9q-web.c:326-328 | `S:…` asks for the SSRC |
| Websocket.ParseReportSsrcAlone | ka9q-web.c:326-328 | a bare `S` asks for the SSRC too |
| Websocket.ParseNoToken | ka9q-web.c:323-324 | an empty string or only colons makes `strtok` return NULL, which is then dereferenced |
| Websocket.ParseLongKey | ka9q-web.c:324 | a first token longer than one character is ignored |
| Websocket.ParseAudioWord | ka9q-web.c:347-355 | `A:START` turns audio on, `A:STOP` off, and any other word leaves it |
| Websocket.ParseAudioDoubleColon | ka9q-web.c:349-352 | `A::STOP` leaves audio as it is, because `&tmp[2]` then starts with the second colon. `A::START` still turns audio on |
| Websocket.ParseAudioAlone | ka9q-web.c:349-350 | a bare `A` dereferences a NULL token |
| Websocket.ParseZoomByte | ka9q-web.c:379-414 | `Z:+` zooms in, `Z:-` out, `Z:c` centres on the frequency, any other byte is a zoom level |
| Websocket.TuneChecksOnce | ka9q-web.c:356-372 | the inline recentring followed by `check_frequency` equals one check, and a showable frequency lands inside the span |
| Websocket.ZoomDirections | ka9q-web.c:379-391 | `Z:+` never widens the bins and `Z:-` never narrows them |

## Left out

- Floating point. Frequencies, bin widths and powers are taken as their bit patterns or as integers in Hz. The conversions `10*log10`, the dB quantisation to 16 or 8 bits and the autorange offset and gain are not modelled. `RotateBins` takes the per-bin conversion as a parameter.
- The minimum and maximum dB kept by `extract_powers`, and the `N == 0` check on the frontend's FFT size. The latter is a parameter `n`.
- `strtod` and `strtol`. The numbers parsed from a message are given with it, as `Numbers`, and they include whether the zoom level and the `Z:c` argument parsed. The `long` zoom level is narrowed with `I32`, as the call to `zoom_to` does.
- Websocket.TunedView: the F branch stores `strtod(...)*1000` without `fabs`, then `control_set_frequency` stores it again with `fabs`. Both are modelled as the one non-negative frequency `hz`.
- Random and `arc4random` command tags, which are parameters.
- Threads and locks. The session mutex is the registry's `locked` flag. The per-session websocket and spectrum mutexes, `pthread_create`, `pthread_join` and their failures are not modelled. Starting the spectrum thread is the `startSpectrum` result.
- Sends and websocket writes. Commands are returned as byte strings. The `S:%d` reply is returned as the number printed. Write failures are not modelled, and neither is the 100 ms pause between stop commands.
- The session list's `next` and `previous` pointers. The list is a sequence, and `free` is removal from it.
- Websocket.ParseKey: for a message of one byte, `&tmp[2]` points past the terminator into uninitialised stack. The model takes that string as empty.
- The spectrum frame's fixed header, which copies 22 words of frontend and session state with `memcpy`, and the websocket write of both frames.
- RadioStatus.DecodeRadioStatus: the float- and double-valued members of the frontend and channel (filter edges, powers, noise density, frequencies and the like) are not tracked; their kinds are skipped like kinds without a case.
- The bytes of a `struct sockaddr` that `decode_socket` does not write: `sin6_flowinfo`, and the IPv6 address past its first 8 bytes, which lies beyond the 16-byte `struct sockaddr` members it decodes into. A decoded socket is only the family, port and address bytes written, and a member no socket field has reached is `None`.
- Tlv.DecodeFloat: the low 32 bits that a value of 5 to 7 or 9 or more bytes yields through the `union` are those of a little-endian host; so are the low 64 bits in Tlv.DecodeDouble.
- Tlv.DecodeString: a failed `malloc`. The source then writes the terminator through a NULL pointer; the model always returns the copied bytes and their NUL.
- `init_demod` and the NaN reset of the frontend's frequency and filter edges in `init_control`, which are frontend state outside the model.
- Multicast.ResolveMcast: `getaddrinfo` and its retry loop are the `lookup` parameter, which always succeeds. A failed lookup after the last retry is not modelled.
- Multicast.FormatCache.Format: `getnameinfo` is three parameters. The lock released around it, and the duplicate entries that could then appear, are not modelled.
- The other multicast socket functions (`setup_mcast`, `listen_mcast`, `join_group` and the interface lookups) only make system calls.

## Findings

| source | as written | input that shows it | evidently intended | confidence | as-written member | corrected member |
|---|---|---|---|---|---|---|
| ka9q-web.c:636-645 | `pkt->len` is a `size_t`, so `size - header` and the padding subtraction wrap, and `len <= 0` only rejects 0 | a 13-byte datagram whose first byte is 0x81 (one CSRC, so a 16-byte header) is accepted with a length of 2^64 − 3 | skip a datagram whose header or padding runs past its end | not executed | Rtp.ShortDatagramAccepted | Rtp.ReceiveSound |
| ka9q-web.c:924,945 | after BIN_DATA the pointer advances by `4 * count` inside the loop and again by `optlen` after the switch, so the field after BIN_DATA is skipped | the record `BIN_DATA 4 <1.0f> BIN_COUNT 1 1 EOL` returns -1 because its BIN_COUNT is never read | advance once per field, so that field order does not matter | not executed | Spectrum.BinsFirstRejected | Spectrum.WalkOnceVisitsFields |
| ka9q-web.c:303-305,318 | the read length is clamped to `sizeof(tmp) - 1` only when it exceeds `sizeof(tmp)`, so a length of exactly 1620 is kept and `tmp[len] = 0` writes one byte past `tmp` | `data_ready_len == 1620` | clamp whenever the length is at least `sizeof(tmp)` | not executed | Websocket.TerminatorPastEnd | Websocket.ReadLimit |
