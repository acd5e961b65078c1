# Verification of the mesh radio stack

This Dafny project models the parts of the repository that carry one radio message from wire bytes to
acknowledged delivery, and proves what they promise. Verify it with `dafny verify dfyconfig.toml`.

| modules | models |
|---|---|
| `Gateway`, `Transmitter` | the gateway's duty-cycle scheduler: airtime, the sliding-window ledger, the round robin, and the loop that drains the queues over an arbitrary non-decreasing clock |
| `Kiss` | framing: the encoder, the streaming decoder, and the batch meaning of a byte stream (The KISS TNC, section 2) |
| `Packets`, `Crypto`, `Messaging`, `Room`, `Advert` | packets, sealed payloads (ECB of section 6.1 of NIST SP 800-38A, truncated HMAC of section 5 of RFC 2104), text, PATH, ACK, login and push messages, adverts, and the two deliveries with retries |
| `Observer` | the packet identity of the observer, a second parser of the same wire format |
| `AckTable`, `Recent`, `Store`, `PushRuns` | state shared by the servers: waiters for ACKs under all interleavings, the duplicate cache, posts and cursors, concurrent pushes |
| `Inbound`, `Sessions`, `RoomStates`, `EchoStates` | the two servers as transition systems: which outcomes a received frame can have, what each does to the state, and what whole runs come to |
| `Coverage` | the room server's background tasks beginning in any order among its frames: which client is sent which post |
| `RoomServers`, `EchoServers` | the servers themselves: one method per handler, over classes whose fields are those of the source, each proved to take exactly the steps of its transition system |

Code that changes state step by step is a method or a class with a specification function beside it; the
lemmas about that function are the results. `Bytes` and `Wrappers` are helpers.

## What the proofs show

- **Duty cycle.** The gateway never exceeds its budget in any half-open window, for any arrivals, any payload
  sizes and any non-decreasing clock. The interval must be half-open: a closed one can be exceeded by
  every gateway whose budget admits a one-byte payload, and only by those. The `max(0.0, ...)` clamp never acts in
  exact arithmetic.
- **Promptness.** The gateway never waits in vain: it sleeps only while the budget refuses the frame, and each frame goes
  out within 10 ms, the shortest sleep, of when the budget has room, but for the time the clock itself loses.
- **Airtime.** The formula adds four to a coding rate that the presets already write as 5 to 8, so each coding block is
  booked as 9 to 12 symbols.
- **Drain.** `flush` drains its queues if every queued payload fits the budget, and only then: an oversized payload
  at the head blocks its gateway for ever. Because each message is flushed before the next is read, one whole call
  sends in arrival order and the round robin never has two payloads to choose between.
- **KISS.** The type byte of a frame is not escaped. A frame comes back as itself exactly when that byte is neither
  FEND nor FESC and is not the RETURN byte, unless the frame is RETURN on port 0 without data.
- **Long paths.** `encode_packet` accepts paths over 64 bytes that every `decode_packet` refuses. A PATH message can
  teach the room server such a route, of up to 252 bytes; pushes along it are encoded and never arrive. The observer
  is the one reader that identifies such frames.
- **Who gets what.** A post and another client with a session never miss each other, however frames and tasks interleave:
  the post's fan-out goes to the client or the client's sync selects the post, if it is newer than the client asked for.
  Both do, for a client's first sync, exactly when the two tasks were pending together: the client is then sent the post
  twice. `max_sync_posts` may still cut the selection.
- **Sync.** Resuming from the timestamp of the last post pushed loses posts exactly when a page ends on a timestamp tie.
- **NUL.** Both ends hash the same bytes exactly when the text has no NUL: a text with one is delivered cut, and its
  acknowledgement is computed from the cut text.
- **Retries.** In a text run every attempt awaits the hash of different bytes, so nothing makes the duplicate cache of
  its receiver recognise a retry: it does only where two truncated hashes happen to agree. In a push run attempts that
  agree mod 4 await the same hash.
- **Echo.** The path handler of the echo server resolves no waiter, unlike the room server's. An attempt of an echo is
  confirmed by its receiver's acknowledgement exactly when it went out directly, whatever repeaters both passed: a
  flooded one is acknowledged inside a PATH message, which carries the awaited hash and is not read for it. In the room
  server both carriers confirm a push. When an expired key is accepted again, the purge removes the path recorded a
  moment before, and `best_path_packet` falls back to the packet in hand.
- **Contacts.** The echo server files keys from its cache file and configuration unchecked. Key agreement raises at one
  that is no curve point, so a message is lost exactly when such a contact was filed before its sender's at one address.

## Hypotheses

The primitives are function values in `Crypto.Primitives`. `Lawful` says of them that the block cipher decrypts what
it encrypted, and that hashes, keys and blocks have their sizes; `Suite` is the type of lawful primitives. Agreement of
two key pairs on a secret is the hypothesis `Agree` where two ends meet. Nothing is claimed about collisions: results
compare hash inputs, or hashes of equal inputs. What lies between two ends of a link is the relation `Relayed`: a
packet may arrive with another path and other transport codes, but with its type and payload, and as a flood exactly if
it was sent as one. Clock readings, the outcomes of waits, random bytes and reply wording are parameters.

## Model

| member | source | states |
|---|---|---|
| Gateway.PacedIsSafe | packages/mesh-gateway/src/mesh_gateway/gateway.py:152-182 | Duty-cycle safety: if every frame was admitted under the budget, then in every half-open interval one window long the recorded airtimes sum to at most the budget, for any airtimes and any non-decreasing clock |
| Gateway.ClosedWindowExactly | packages/mesh-gateway/src/mesh_gateway/gateway.py:156-158 | Half-open is exact: some admitted history of non-empty payloads exceeds the budget in some closed interval one window long if and only if a payload of one byte fits the budget, that is, if and only if the gateway can send anything at all |
| Gateway.ClosedWindowCanExceed | packages/mesh-gateway/src/mesh_gateway/gateway.py:156-171 | For every payload that fits the budget there is such a history: as many copies as the budget admits at once, and one more exactly one window later |
| Gateway.LedgerIsLive | packages/mesh-gateway/src/mesh_gateway/gateway.py:156-168 | Once purged, the ledger sums to the airtime of exactly the transmissions younger than a window |
| Gateway.LedgerExpire | packages/mesh-gateway/src/mesh_gateway/gateway.py:156-158 | Dropping the oldest expired entry keeps the ledger invariant, and the subtraction never goes below zero, so the clamp changes nothing |
| Gateway.LedgerSend | packages/mesh-gateway/src/mesh_gateway/gateway.py:166-182 | Booking an admitted transmission, at a time no earlier than its admission, keeps the ledger invariant, safety of the whole history included |
| Gateway.LedgerWeights | packages/mesh-gateway/src/mesh_gateway/gateway.py:147-158 | `used` is at least 0.001 per ledger entry, so the ledger holds at most budget / 0.001 entries |
| Gateway.AdmittedFits | packages/mesh-gateway/src/mesh_gateway/gateway.py:167-171 | Nothing that alone exceeds the budget is ever admitted |
| Gateway.FewestBlocks | packages/mesh-gateway/src/mesh_gateway/gateway.py:35-44 | The payload takes eight symbols and exactly the fewest coding blocks that hold its bits |
| Gateway.AirtimeMonotone | packages/mesh-gateway/src/mesh_gateway/gateway.py:29-46 | A longer payload never has less airtime, for all radio settings and for none |
| Gateway.AirtimeExactly | packages/mesh-gateway/src/mesh_gateway/gateway.py:29-46 | A frame takes 12.25 symbols more than its payload, but at least a millisecond, and a second if no radio is configured |
| Gateway.SymbolExactly | packages/mesh-gateway/src/mesh_gateway/gateway.py:32-34 | A symbol lasts 2 ** SF chips at the bandwidth, for each of the eight spreading factors |
| Gateway.RefusedUntil | packages/mesh-gateway/src/mesh_gateway/gateway.py:167-171 | A frame that the budget refuses is refused at every instant until the oldest live entry expires, and for ever if there is none |
| Gateway.DefaultFrameFits | packages/softmesh-stack/src/softmesh_stack/radio.py:66-72 | In the NL preset, every frame of at most 255 bytes fits the default budget |
| Gateway.ServeKeepsSchedule | packages/mesh-gateway/src/mesh_gateway/gateway.py:172-176 | Serving the head keeps `order` duplicate-free with exactly the keys of `queues`, none of them empty, and removes one payload |
| Gateway.RoundRobinExact | packages/mesh-gateway/src/mesh_gateway/gateway.py:149-182 | The round-robin table holds every queued payload exactly once, the k-th of every source before the (k+1)-th of any, ties by initial position |
| Gateway.PlanIsRoundRobin | packages/mesh-gateway/src/mesh_gateway/gateway.py:172-176 | Rotating the head of `order` to the back, turn after turn, transmits exactly that table |
| Transmitter.Transmitter.constructor | packages/mesh-gateway/src/mesh_gateway/gateway.py:142-150 | A call starts with an empty ledger and empty queues, and a budget of duty cycle times window |
| Transmitter.Transmitter.Safe | packages/mesh-gateway/src/mesh_gateway/gateway.py:152-182 | At any moment of a call every window is within budget, and the ledger is short |
| Transmitter.Transmitter.Expire | packages/mesh-gateway/src/mesh_gateway/gateway.py:156-158 | Purging keeps the invariant, leaves only live entries, and drops no live one |
| Transmitter.Transmitter.FlushTurn | packages/mesh-gateway/src/mesh_gateway/gateway.py:154-182 | One turn, for any queues at all: drops an idle source, or sleeps, or sends and rotates. It sleeps only if the budget refused the payload at some instant of it, and is awake within 10 ms of the first instant at which the budget has room, but for the time the clock itself loses; it sends without sleeping. A punctual sleep for a payload that fits strictly lowers the number of live entries |
| Transmitter.Transmitter.Dequeue | packages/mesh-gateway/src/mesh_gateway/gateway.py:172-176 | popleft, rotate and remove together take the head payload and move its source to the back, or away if it has no more |
| Transmitter.Transmitter.Wait | packages/mesh-gateway/src/mesh_gateway/gateway.py:168-171 | A refused payload that fits the budget finds a ledger entry to wait for; a sleep of at least that length lets it expire, and the sleep asked for ends at most 10 ms after the budget has room, and within a window |
| Transmitter.Transmitter.Transmit | packages/mesh-gateway/src/mesh_gateway/gateway.py:177-182 | The frame is written, and its airtime booked at the time the write has drained |
| Transmitter.Transmitter.Enqueue | packages/mesh-gateway/src/mesh_gateway/gateway.py:184-192 | An arrival joins its source's queue and lists a new source last; an empty payload changes nothing |
| Transmitter.Transmitter.Drive | packages/mesh-gateway/src/mesh_gateway/gateway.py:152-193 | Any interleaving of arrivals and turns, payloads of any size included, keeps the ledger invariant and only ever adds transmissions |
| Transmitter.Transmitter.Flush | packages/mesh-gateway/src/mesh_gateway/gateway.py:152-182 | Drain: with a punctual clock and payloads that fit, flush terminates with `order` and `queues` empty, having transmitted the round-robin table of what was queued, each frame within 10 ms of when the budget had room for it once the one before had drained, but for the time the clock lost |
| Transmitter.EachOnTime | packages/mesh-gateway/src/mesh_gateway/gateway.py:152-182 | What being on time means of each transmission of a flush |
| Transmitter.Transmitter.Turns | packages/mesh-gateway/src/mesh_gateway/gateway.py:152-182 | Conversely, if any number of turns empties the queues, every queued payload fitted the budget |
| Transmitter.TurnFollowsPlan | packages/mesh-gateway/src/mesh_gateway/gateway.py:154-182 | Every turn transmits what the plan says next, or sleeps; what has been sent plus what is planned never changes |
| Transmitter.Transmitter.MqttToSerial | packages/mesh-gateway/src/mesh_gateway/gateway.py:184-193 | A whole call transmits the non-empty messages in arrival order, whatever their sources |
| Transmitter.Transmitter.Handle | packages/mesh-gateway/src/mesh_gateway/gateway.py:184-193 | One message with nothing queued goes out within 10 ms of when the budget has room for it, so at once if it has room now, but for the time the clock loses; and nothing is queued afterwards |
| Transmitter.SerialDelivers | packages/mesh-gateway/src/mesh_gateway/gateway.py:177-179 | The modem reads back exactly the payloads transmitted, in order, after at most one leftover frame, whatever it was doing before |
| Kiss.Encode | packages/softmesh-stack/src/softmesh_stack/kiss.py:44-68 | The escaping loop produces the frame's wire form, and fails with the right error exactly for an out-of-range port or command |
| Kiss.KissDecoder.Feed | packages/softmesh-stack/src/softmesh_stack/kiss.py:89-114 | The loop over a chunk is the byte-by-byte state machine run over that chunk |
| Kiss.ChunkingIrrelevant | packages/softmesh-stack/src/softmesh_stack/kiss.py:89-114 | Any cutting of a stream into chunks gives the same frames and the same final state |
| Kiss.FeedRefinesSpec | packages/softmesh-stack/src/softmesh_stack/kiss.py:89-125 | From a fresh decoder the frames are those of the batch specification: split at FEND, drop the first and last part, unescape the rest, drop the empty |
| Kiss.ResyncAndRoundTrip | packages/softmesh-stack/src/softmesh_stack/kiss.py:44-125 | From any decoder state the encodings of f1..fn give at most one leftover frame, which the prior state fixes, and then exactly f1..fn, for faithful frames |
| Kiss.RoundTripExactly | packages/softmesh-stack/src/softmesh_stack/kiss.py:44-125 | An encodable frame comes back as itself if and only if its type byte is not FEND, FESC or the RETURN byte with another meaning |
| Packets.HeaderBijection | packages/softmesh-stack/src/softmesh_stack/packet.py:74-87 | Every header byte decodes to fields in range and encodes back to itself |
| Packets.PathLenBijection | packages/softmesh-stack/src/softmesh_stack/packet.py:90-103 | path_len bytes and in-range pairs of hop count and hop size correspond one to one |
| Packets.EncodePacket | packages/softmesh-stack/src/softmesh_stack/packet.py:125-141 | The appending loop computes the specified wire form, or the error of the first check that fails |
| Packets.DecodePacket | packages/softmesh-stack/src/softmesh_stack/packet.py:144-188 | The advancing index computes the specified decoding, or the error of the first check that fails |
| Packets.EncodeOfDecode | packages/softmesh-stack/src/softmesh_stack/packet.py:125-188 | encode(decode(b)) == b for every byte string that decodes, unknown types included |
| Packets.DecodeOfEncode | packages/softmesh-stack/src/softmesh_stack/packet.py:125-188 | An encodable packet decodes to itself if and only if its fields are in range and its path is at most 64 bytes |
| Packets.DecoderImage | packages/softmesh-stack/src/softmesh_stack/packet.py:125-188 | The decoder accepts exactly the wires of well-formed packets, each from one packet only |
| Packets.LongPathRefused | packages/softmesh-stack/src/softmesh_stack/packet.py:125-188 | An encodable packet with a path over 64 bytes is refused by the decoder for its path |
| Packets.WireBytes | packages/softmesh-stack/src/softmesh_stack/packet.py:74-141 | The bytes of a packet: header bits, little-endian transport codes, hop count and size, path, payload |
| Crypto.EcbRoundTrip | packages/softmesh-stack/src/softmesh_stack/crypto.py:88-104 | Block by block decryption inverts encryption on every whole number of blocks |
| Crypto.SealOpens | packages/softmesh-stack/src/softmesh_stack/crypto.py:107-144 | A sealed plaintext opens to its zero padding if and only if it is not empty |
| Crypto.SealMac | packages/softmesh-stack/src/softmesh_stack/crypto.py:107-124 | A sealed plaintext is two bytes of the HMAC under the secret of what follows, which is the plaintext padded to whole blocks in length |
| Crypto.SealBlock | packages/softmesh-stack/src/softmesh_stack/crypto.py:107-124 | Block k of what follows is block k of the zero-padded plaintext, encrypted under the first 16 bytes of the secret |
| Crypto.OpenExactly | packages/softmesh-stack/src/softmesh_stack/crypto.py:127-144 | Opening succeeds if and only if there are whole blocks, at least one, behind their two bytes of HMAC |
| Messaging.TxtRoundTrip | packages/softmesh-stack/src/softmesh_stack/messaging.py:176-289 | Opening a sealed text message gives its timestamp, attempt mod 4, type, and text up to the first NUL; the text is whole if and only if it has no NUL |
| Messaging.PathRoundTrip | packages/softmesh-stack/src/softmesh_stack/messaging.py:225-321 | Opening a sealed PATH message gives its path and hop size exactly, the low four bits of the extra type, and the extra as the parser leaves it |
| Messaging.ExtraExactly | packages/softmesh-stack/src/softmesh_stack/messaging.py:308-313 | A bundled 4-byte ACK is exact; any other extra is exact if and only if it does not end in zero |
| Messaging.ParsedRouteFits | packages/softmesh-stack/src/softmesh_stack/messaging.py:303-307 | A route read from a PATH message has hops of 1 to 4 bytes, is aligned and has at most 63 hops |
| Messaging.AckComesBack | packages/softmesh-stack/src/softmesh_stack/messaging.py:485-506 | The hash comes back bit for bit through both carriers, after encode and decode |
| Messaging.AckReplyReads | packages/room-server/src/room_server/protocol.py:327-342 | A flood is answered with a flooded PATH in which the sender reads the route its packet took, hop size included, and the hash; anything else with a flooded ACK of the hash |
| Messaging.ReversePathInvolution | packages/softmesh-stack/src/softmesh_stack/messaging.py:404-413 | Reversing keeps every hop whole in the opposite order, and reversing again restores the path |
| Messaging.HopAt | packages/softmesh-stack/src/softmesh_stack/messaging.py:404-413 | Hop k of a path is its k-th run of hop-size bytes |
| Messaging.PathBytes | packages/softmesh-stack/src/softmesh_stack/messaging.py:225-254 | The bytes of a PATH message: both addresses, and hop count and size, path, extra type and extra, sealed |
| Messaging.DeliverTxtMsgWithAck | packages/softmesh-stack/src/softmesh_stack/messaging.py:416-482 | The retry loop publishes and reports what the schedule of attempts and the outcomes of the waits say, or fails with the right error before publishing |
| Messaging.DeliveryDetermined | packages/softmesh-stack/src/softmesh_stack/messaging.py:438-482 | For given attempts and outcomes there is one way only a delivery can go |
| Messaging.RetrySchedule | packages/softmesh-stack/src/softmesh_stack/messaging.py:438-482 | Attempts 0..r are published, r being the first acknowledged one or else the last, and the result is that of attempt r |
| Messaging.DirectBeforeFlood | packages/softmesh-stack/src/softmesh_stack/messaging.py:443-468 | Of the packets a delivery publishes, as decoded, no direct one follows a flooded one, and each takes the route that was asked for |
| Messaging.ShotAwaits | packages/softmesh-stack/src/softmesh_stack/messaging.py:188-209 | Attempt i of a text run awaits the first four bytes of the hash of timestamp + i / 4, the byte i % 4, the text and the sender's key |
| Messaging.AwaitedApart | packages/softmesh-stack/src/softmesh_stack/messaging.py:453-467 | For two attempts of a run these bytes are the same only if the attempts are |
| Messaging.AckHashBytes | packages/softmesh-stack/src/softmesh_stack/messaging.py:80-96 | The hash of a message that was read is that of its timestamp, attempt and type bits, text, and the sender's key |
| Messaging.AttemptOnAir | packages/softmesh-stack/src/softmesh_stack/messaging.py:211-222 | What attempt i is on the air: both addresses, and timestamp, attempt bits and NUL-terminated text, sealed, over the route of the attempt |
| Messaging.TxtOpensExactly | packages/softmesh-stack/src/softmesh_stack/messaging.py:256-289 | A text message opens if and only if it has at least 20 bytes, in whole blocks, behind the right HMAC |
| Messaging.UnackedSendsAll | packages/softmesh-stack/src/softmesh_stack/messaging.py:443-482 | A delivery of which no attempt is acknowledged publishes exactly the direct attempts asked for, if a path is known, each along it, and then exactly the floods |
| Messaging.UsableRouteNeverFails | packages/softmesh-stack/src/softmesh_stack/messaging.py:438-468 | Over an aligned route of at most 63 hops no attempt fails to encode while timestamps fit 32 bits |
| Messaging.AckAgreement | packages/softmesh-stack/src/softmesh_stack/messaging.py:416-506 | End to end, with any repeaters between the ends: however an attempt is relayed (another path, the same message, flood or not as sent), the receiver opens it, computes for NUL-free text the hash the sender awaits, and its reply by either carrier, however relayed back, gives the sender that hash |
| Messaging.AttemptDecodes | packages/softmesh-stack/src/softmesh_stack/messaging.py:416-468 | Every published attempt decodes, so arriving as published is one of these ways |
| Messaging.AttemptInput | packages/softmesh-stack/src/softmesh_stack/messaging.py:176-209 | The receiver of an attempt hashes the bytes its sender did if and only if the text has no NUL |
| Room.LoginRoundTrip | packages/softmesh-stack/src/softmesh_stack/room.py:82-167 | The room opens a sealed login to the client's key, both timestamps, and the password up to its first NUL |
| Room.LoginResponseRoundTrip | packages/softmesh-stack/src/softmesh_stack/room.py:181-249 | The client opens the response to timestamp, role and permissions |
| Room.PushRoundTrip | packages/softmesh-stack/src/softmesh_stack/room.py:263-355 | The client opens a push to timestamp, attempt mod 4, author prefix and text up to the first NUL |
| Room.PushAckAgreement | packages/softmesh-stack/src/softmesh_stack/room.py:278-407 | End to end, with any repeaters between the ends: however a push is relayed, the client opens it, hashing what it parsed with its own key gives for NUL-free text the hash the room awaits, and its reply by either carrier, however relayed back, brings that hash to the room |
| Room.PushAttemptHashed | packages/softmesh-stack/src/softmesh_stack/room.py:278-355 | The client hashes the bytes the room did if and only if the text has no NUL |
| Room.PushAckInputsAgreeModFour | packages/softmesh-stack/src/softmesh_stack/room.py:393-407 | In a push run two attempts hash the same bytes if and only if they agree mod 4 |
| Room.PushAwaits | packages/softmesh-stack/src/softmesh_stack/room.py:393-407 | Attempt i of a push awaits the first four bytes of the hash of post timestamp, attempt and type bits, author prefix, text and the client's key |
| Room.PushOnAir | packages/softmesh-stack/src/softmesh_stack/room.py:263-300 | What attempt i of a push is on the air |
| Room.UnackedPushesAll | packages/softmesh-stack/src/softmesh_stack/room.py:383-419 | A push of which no attempt is acknowledged publishes exactly the direct attempts, if a path is known, and then exactly the floods |
| Room.LoginBytes | packages/softmesh-stack/src/softmesh_stack/room.py:82-120 | The bytes of a login |
| Room.LoginResponseBytes | packages/softmesh-stack/src/softmesh_stack/room.py:181-238 | The bytes of an answer to it |
| Room.DeliverRoomPushWithAck | packages/softmesh-stack/src/softmesh_stack/room.py:358-419 | The push retry loop publishes and reports what its schedule and the outcomes of the waits say, or fails with the right error |
| Room.UsablePushNeverFails | packages/softmesh-stack/src/softmesh_stack/room.py:383-408 | Over an aligned route of at most 63 hops no push attempt fails to encode |
| Advert.EncodeData | packages/softmesh-stack/src/softmesh_stack/advert.py:68-86 | The accumulating encoder produces the specified layout, and fails with the right error exactly for half a position or a field out of range |
| Advert.DecodeData | packages/softmesh-stack/src/softmesh_stack/advert.py:88-122 | The advancing index computes the specified decoding, or its error |
| Advert.DataRoundTrip | packages/softmesh-stack/src/softmesh_stack/advert.py:68-122 | Over all combinations of optional fields, decoding an encoding reduces the type to four bits, cuts the name at its first NUL, and changes nothing else |
| Advert.DataRoundTripExactly | packages/softmesh-stack/src/softmesh_stack/advert.py:68-122 | So decode inverts encode if and only if the type has four bits and the name no NUL |
| Advert.AdvertRoundTrip | packages/softmesh-stack/src/softmesh_stack/advert.py:133-176 | The receiver decodes what was advertised, and the message it rebuilds is the one that was signed |
| Observer.PacketHashInput | packages/observer/src/observer/reporter.py:45-76 | The moving offset feeds the hash exactly the specified bytes, or gives up |
| Observer.ParsersAgree | packages/observer/src/observer/reporter.py:45-76 | On every packet the decoder accepts, the observer hashes the decoded type and payload, with the path_len byte between them for TRACE |
| Observer.ParsersDifferExactly | packages/observer/src/observer/reporter.py:45-76 | The observer hashes a frame the decoder refuses if and only if the refusal is for a path over 64 bytes that is present in full |
| Observer.SameMessageSameIdentity | packages/observer/src/observer/reporter.py:45-76 | Two packets other than TRACE hash the same bytes if and only if they have the same type and payload |
| AckTable.AckWaiters.BeginWait | packages/room-server/src/room_server/protocol.py:159-162 | Registering appends the future under its hash |
| AckTable.AckWaiters.ResolveAck | packages/room-server/src/room_server/protocol.py:175-180 | An ACK takes the list of its hash out, resolves the pending futures on it, and reports whether there was one |
| AckTable.AckWaiters.TimeOut | packages/room-server/src/room_server/protocol.py:163-166 | A timeout cancels the pending future |
| AckTable.AckWaiters.EndWait | packages/room-server/src/room_server/protocol.py:163-173 | Cleanup takes this future off its list, drops the list if that empties it, and reports True only for a resolved wait |
| AckTable.EveryRunKeepsInv | packages/room-server/src/room_server/protocol.py:159-180 | Under every interleaving each pending waiter is listed once, under its own hash; no list is empty; the table is empty when no wait is in progress |
| AckTable.TrueMeansAcknowledged | packages/home-auto-client/src/home_auto_client/echo_server.py:164-191 | A wait returns True only if an ACK for its hash arrived after it registered |
| AckTable.CleanupIsLocal | packages/room-server/src/room_server/protocol.py:167-173 | One waiter's cleanup leaves every other waiter as it was, of the same hash or not |
| AckTable.ResolveWakesAll | packages/room-server/src/room_server/protocol.py:175-180 | An ACK resolves every pending waiter of its hash and leaves none waiting |
| Recent.RememberRefines | packages/room-server/src/room_server/protocol.py:128-138 | One call answers as the full history would, and the cache goes on representing it |
| Recent.CacheRefinesHistory | packages/room-server/src/room_server/protocol.py:128-138 | Over any run with a non-decreasing clock, a call is accepted if and only if none with its key was accepted within the ttl; so accepted calls of one key are more than the ttl apart |
| Store.PostsSinceExact | packages/room-server/src/room_server/db.py:114-135 | The query lists exactly the newer posts of other authors, strictly ordered by (ts, id) |
| Store.PostsSinceLater | packages/room-server/src/room_server/db.py:114-135 | Asking again from a later timestamp gives the suffix of the earlier answer |
| Store.BatchExact | packages/room-server/src/room_server/protocol.py:287-292 | What a sync sends are newer posts of other authors, in (ts, id) order, at most max_sync_posts, and no post left out comes before one that is sent |
| Store.PagingCompleteExactly | packages/room-server/src/room_server/protocol.py:287-296 | Repeating a sync from the last timestamp pushed lists every post once each if and only if no page ends on a timestamp tie |
| Store.TiedPostIsLost | packages/room-server/src/room_server/protocol.py:287-296 | Two posts of one timestamp fetched one at a time: the second is never sent |
| Store.DistinctTimestampsPage | packages/room-server/src/room_server/protocol.py:287-296 | With distinct timestamps no page ends on a tie |
| Store.CursorIsMaximum | packages/room-server/src/room_server/db.py:138-171 | However logins and acknowledgements of all clients interleave, a cursor is the maximum of its prior value and the acknowledged timestamps |
| Store.RoomStore.AddPost | packages/room-server/src/room_server/db.py:93-112 | The row is appended under the next id, and ids stay unique |
| Store.RoomStore.UpsertClient | packages/room-server/src/room_server/db.py:138-151 | A login inserts a client with cursor 0, or updates everything but the cursor |
| Store.RoomStore.SetClientCursor | packages/room-server/src/room_server/db.py:166-171 | The cursor of a known client moves, and only upwards |
| PushRuns.PushOf | packages/softmesh-stack/src/softmesh_stack/room.py:393-407 | What a concurrent push publishes and the hashes it waits for, one per attempt, are those of the delivery loop |
| PushRuns.PublishesOwnAttempts | packages/room-server/src/room_server/protocol.py:344-356 | Under every interleaving what a push has published is the prefix of its own attempts that it has made, in order |
| PushRuns.PublishesItsDelivery | packages/softmesh-stack/src/softmesh_stack/room.py:392-419 | A push that is over has published exactly the packets of its own delivery, for the outcomes its waits had, and that delivery reports it acknowledged exactly when it was |
| PushRuns.EveryRunKeepsInv | packages/room-server/src/room_server/protocol.py:358-386 | Under every interleaving of pushes, ACKs, timeouts and logins: waits and waiting pushes correspond one to one on the same hash, every cursor is the maximum of where it started (0 for a client that first logs in during the run) and the timestamps booked since the client was known, and every push has published a prefix of its own attempts |
| PushRuns.CursorMeansAcknowledged | packages/room-server/src/room_server/protocol.py:358-386 | A cursor never falls, never stays below a booked push, and rises only to the timestamp of a push of which an attempt was acknowledged during that very push's wait |
| PushRuns.NothingLeftBehind | packages/room-server/src/room_server/protocol.py:159-173 | When no push is waiting the waiter table is empty |
| Inbound.PostAckReads | packages/room-server/src/room_server/protocol.py:327-342 | The acknowledgement of a text message encodes and decodes, and its sender reads out of it the hash it awaits |
| Inbound.PostAckShows | packages/room-server/src/room_server/protocol.py:327-342 | A flooded message is acknowledged by a PATH in which its sender reads the route the message took and the hash of its own bytes; any other by an ACK of that hash |
| Inbound.AckKeyBytes | packages/room-server/src/room_server/protocol.py:311-313 | A message is remembered by its address byte and the hash of timestamp, attempt and type bits, text and the sender's key |
| Inbound.AdvertisedExactly | packages/room-server/src/room_server/protocol.py:229-236 | An advert counts if and only if it decodes, is of another node, and its key signed its key, timestamp and data |
| Inbound.FirstToOpenTxt | packages/home-auto-client/src/home_auto_client/echo_server.py:276-280 | The loop over the candidates computes the search |
| Inbound.SearchTxtEnds | packages/home-auto-client/src/home_auto_client/echo_server.py:276-280 | The search ends at the first candidate whose key opens the message or that has no shared secret, and finds nobody exactly when all have secrets and none opens it |
| Inbound.LostExactly | packages/home-auto-client/src/home_auto_client/echo_server.py:276-280 | A message is lost if and only if a candidate without a shared secret comes before every candidate whose key opens it |
| Inbound.OrderMatters | packages/home-auto-client/src/home_auto_client/echo_server.py:276-280 | With a candidate without a secret and one that opens the message, it is lost in one order and taken in the other |
| Inbound.SearchPathEnds | packages/home-auto-client/src/home_auto_client/echo_server.py:402-406 | The same for PATH messages |
| Sessions.ReturnRouteOk | packages/room-server/src/room_server/protocol.py:115-119 | A return route is direct if and only if a path was observed, holds the observed hops backwards, and fits a packet |
| Sessions.TrackKeepsSessions | packages/room-server/src/room_server/protocol.py:140-153 | Tracking a login or a post keeps index, roles, names and routes right |
| Sessions.TrackKeepsIndex | packages/room-server/src/room_server/protocol.py:145-157 | The index by first key byte goes on equalling the linear scan of sessions |
| Sessions.TrackKeepsRoles | packages/room-server/src/room_server/protocol.py:140-153 | Every session's role goes on being that of its client's latest accepted login |
| Sessions.LearnKeepsSessions | packages/room-server/src/room_server/protocol.py:203-207 | A learned route that fits, as every one read from a PATH message does, keeps the invariant |
| Sessions.RenameKeepsSessions | packages/room-server/src/room_server/protocol.py:240-244 | Renaming in the name table and the session keeps the invariant |
| Sessions.SessionRouteOnAir | packages/room-server/src/room_server/protocol.py:189-212 | The encoder never refuses a session's route; decoders accept the packet if and only if the route is at most 64 bytes |
| Sessions.LearnedRouteOnAir | packages/room-server/src/room_server/protocol.py:196-207 | Any aligned path of at most 63 hops can be received in a PATH packet and becomes the session's route; every push along it encodes, and decodes if and only if the path is at most 64 bytes |
| Sessions.LoginAnswerEncodes | packages/room-server/src/room_server/protocol.py:269-284 | Every login answer encodes, and decodes to itself |
| Sessions.LoginAnswerReads | packages/room-server/src/room_server/protocol.py:269-284 | The client reads its role and permissions (3 for administrators, 2 for guests) out of the answer |
| Sessions.LoginAnswerRoute | packages/room-server/src/room_server/protocol.py:266-284 | The bytes of the answer, and that it goes back along the hops the login came by, reversed, or floods if it came by none |
| RoomStates.RunAddsUp | packages/room-server/src/room_server/protocol.py:425-452 | Over any run of received frames: every login and every message that opened is answered exactly once and in order, every new plain message becomes exactly one post, every login starts one sync and every post one fan-out, and nothing else is published, stored or started |
| RoomStates.StepKeepsTasks | packages/room-server/src/room_server/protocol.py:101-109 | After every frame each task started can run: a sync has a session, and a fan-out a post whose timestamp fits |
| RoomStates.EveryMessageIsPosted | packages/room-server/src/room_server/protocol.py:299-325 | In any run every message that opens under the key of a client logged in by then is taken and acknowledged once |
| RoomStates.FreshExactly | packages/room-server/src/room_server/protocol.py:128-138 | In any run a message is new if and only if nothing from its address with the hash of its bytes was accepted within the ttl, before the run or in it |
| RoomStates.PostedExactly | packages/room-server/src/room_server/protocol.py:311-323 | A message that opened becomes a post, with its author, timestamp and text, and a fan-out of it, if and only if it is new and plain |
| RoomStates.CandidatesExactly | packages/room-server/src/room_server/protocol.py:299-308 | The keys tried are those of the sessions filed under the second byte of a message whose first is the host's address |
| RoomStates.AckedExactly | packages/room-server/src/room_server/protocol.py:182-187 | An ACK counts if and only if it has four bytes, and those are its hash |
| RoomStates.LoggedInExactly | packages/room-server/src/room_server/protocol.py:121-126 | In any run a login is let in as administrator if and only if it opens, is for the host and has the non-empty administrators' password, and as guest if and only if it has the non-empty guests' password and not the administrators' |
| RoomStates.LoginRecorded | packages/room-server/src/room_server/protocol.py:247-263 | And so it is recorded, with the client's name: in the session, in the clients table, and as its latest role |
| RoomStates.NamedExactly | packages/room-server/src/room_server/protocol.py:229-244 | An advert names a node if and only if it decodes, is of another node, is signed by its key and is no older than the last one taken |
| RoomStates.PostsOfRunApart | packages/room-server/src/room_server/protocol.py:299-325 | Any two posts that a run stores from one source address with one hash of their bytes were received more than the ttl apart |
| RoomStates.StoredPostsApart | packages/room-server/src/room_server/protocol.py:128-138 | The same of the rows in the store, over the life of a server: rows with one source address and ACK hash were accepted more than the ttl apart |
| RoomStates.StepKeepsRoles | packages/room-server/src/room_server/protocol.py:247-285 | Every frame keeps the sessions to exactly the clients that logged in, each with the role of its latest login |
| RoomStates.PushNeverFails | packages/room-server/src/room_server/protocol.py:358-386 | Over a session's route a push ends acknowledged or with its last attempt, never with an encoding error |
| RoomStates.PushReads | packages/room-server/src/room_server/protocol.py:364-372 | However a packet of a push is relayed, the client reads in it the post: its timestamp, author prefix and body |
| RoomStates.PushedOnAir | packages/room-server/src/room_server/protocol.py:364-378 | The k-th packet of a push goes directly along the session's route for the configured direct attempts, if there is one, and then floods, with the post sealed for the client |
| RoomStates.UnackedPush | packages/room-server/src/room_server/protocol.py:377-378 | A push of which no attempt is acknowledged makes exactly the attempts configured |
| RoomStates.PushConfirmed | packages/room-server/src/room_server/protocol.py:182-212 | Both acknowledgements of a push resolve its wait, whatever repeaters push and acknowledgement passed: a plain ACK, and a PATH that no other session's key at that address opens |
| RoomStates.PushIsPushed | packages/room-server/src/room_server/protocol.py:358-386 | Every attempt of a push over a session's route of at most 64 bytes meets the premises of PushConfirmed |
| Coverage.NobodyIsMissed | packages/room-server/src/room_server/protocol.py:285-349 | However frames and background tasks interleave, once a post's fan-out and another client's sync have begun, the post goes to that client: the fan-out has the client as a target, or the sync selects the post, or the post is no newer than the client asked for |
| Coverage.ReachedTwiceExactly | packages/room-server/src/room_server/protocol.py:285-349 | Both happen, for a client's first sync, if and only if the post is newer than asked for and each task had been started when the other began |
| Coverage.EveryoneHasTasks | packages/room-server/src/room_server/protocol.py:285-323 | In every run exactly the clients with sessions have been given syncs, and every post stored in it a fan-out |
| Coverage.StepKeepsInv | packages/room-server/src/room_server/protocol.py:285-349 | Every step keeps this: the targets of a fan-out are the clients whose first sync was started before it began, and the selection of a sync has the newer posts of others stored before it began |
| Coverage.FrameChanges | packages/room-server/src/room_server/protocol.py:247-323 | As far as tasks are concerned a frame lets one client in with one sync, adds one post with one fan-out, or changes nothing |
| RoomServers.RoomServer.constructor | packages/room-server/src/room_server/protocol.py:85-99 | A new server has no sessions and satisfies the invariant over any well-formed store |
| RoomServers.RoomServer.SessionFacts | packages/room-server/src/room_server/protocol.py:115-157 | For every session: the index finds it and equals the scan, its role is that of the latest login, its route is usable |
| RoomServers.RoomServer.PostsApart | packages/room-server/src/room_server/protocol.py:128-138 | At any time, rows the server stored with one source address and ACK hash were accepted more than the ttl apart |
| RoomServers.RoomServer.SessionsAt | packages/room-server/src/room_server/protocol.py:155-157 | The sessions at an address, each once: exactly those of the linear scan |
| RoomServers.RoomServer.HandleAdvert | packages/room-server/src/room_server/protocol.py:229-244 | Only a signed advert of another node no older than the last changes anything: its timestamp, and a name for table and session; recorded timestamps never go back |
| RoomServers.RoomServer.HandleAck | packages/room-server/src/room_server/protocol.py:182-187 | A payload of at least four bytes resolves the waiters of its first four, and nothing else happens |
| RoomServers.RoomServer.HandlePath | packages/room-server/src/room_server/protocol.py:189-212 | The PATH of a session resolves its bundled ACK and replaces the route if it has one; if no session's key opens it nothing changes |
| RoomServers.RoomServer.TrackSession | packages/room-server/src/room_server/protocol.py:140-153 | Session and index after an observed packet |
| RoomServers.RoomServer.HandleLogin | packages/room-server/src/room_server/protocol.py:247-285 | A login is admitted by its password alone; it is then tracked, recorded, answered once, and one sync is started; otherwise nothing changes |
| RoomServers.RoomServer.RememberMessage | packages/room-server/src/room_server/protocol.py:128-138 | The purging loop and the test compute the cache and the answer of the specification |
| RoomServers.RoomServer.Judge | packages/room-server/src/room_server/protocol.py:128-138 | The answer is new if and only if no call with the key was accepted within the ttl |
| RoomServers.RoomServer.HandlePost | packages/room-server/src/room_server/protocol.py:299-325 | Every message that opens is acknowledged exactly once; it is stored and handed to fan-out if and only if it is fresh and plain; the sender's route is refreshed and its role kept |
| RoomServers.RoomServer.StorePost | packages/room-server/src/room_server/protocol.py:318-323 | The post is added under the next id and its fan-out started |
| RoomServers.RoomServer.Absorb | packages/room-server/src/room_server/protocol.py:312-323 | One message is judged, its acknowledgement published, and a post added exactly if it is new and plain |
| RoomServers.RoomServer.PushPost | packages/room-server/src/room_server/protocol.py:358-386 | Exactly the packets of one delivery over the session's route are published, its result is returned, and the cursor moves if and only if it was acknowledged; RoomStates.PushReads and PushedOnAir say what they are |
| RoomServers.RoomServer.SyncClient | packages/room-server/src/room_server/protocol.py:287-296 | What is published is the deliveries of the first max_sync_posts newer posts of other authors, in order, up to and with the first that cannot be made; with attempts configured, all of them; the cursors are booked accordingly |
| RoomServers.RoomServer.SyncBatchExact | packages/room-server/src/room_server/protocol.py:287-292 | The posts of a sync, as Store.BatchExact has them |
| RoomServers.RoomServer.RunTask | packages/room-server/src/room_server/protocol.py:101-109 | Any task started can be run at any later time, keeps the invariant, and touches nothing but packets and cursors |
| RoomServers.RoomServer.FanOut | packages/room-server/src/room_server/protocol.py:344-356 | A stored post is delivered once to every session but its author's, whatever becomes of the other deliveries, and what is published is exactly those deliveries |
| RoomServers.RoomServer.Receive | packages/room-server/src/room_server/protocol.py:425-452 | Every received byte string has an outcome that its type, the sessions and the history call for, with exactly that outcome's effect on the whole state, and keeps the invariant |
| RoomServers.RoomServer.ReceiveLoop | packages/room-server/src/room_server/protocol.py:425-452 | Any sequence of received byte strings is such a run, of which the results on RoomStates hold |
| EchoStates.HeardKeepsCaches | packages/home-auto-client/src/home_auto_client/echo_server.py:142-162 | After every message the remembered paths belong to remembered messages; the path just recorded survives if and only if its key had not expired |
| EchoStates.HeardOverHistory | packages/home-auto-client/src/home_auto_client/echo_server.py:142-159 | Both caches after a message go on representing full history |
| EchoStates.BestPathIsEarliestBest | packages/home-auto-client/src/home_auto_client/echo_server.py:155-162 | For a key not remembered when its first copy arrives, until that copy expires, the cached path is that of the earliest copy with the most hops |
| EchoStates.BestPathOfRun | packages/home-auto-client/src/home_auto_client/echo_server.py:289-292 | The same of the frames received in any run |
| EchoStates.ContactsGrow | packages/home-auto-client/src/home_auto_client/echo_server.py:92-106 | Contacts stay filed under their own address |
| EchoStates.FiledIsAssignment | packages/home-auto-client/src/home_auto_client/echo_server.py:92-95 | Filing a contact is a dict assignment: it is found under its new name, all others as before; a known key keeps its place, a new one goes last |
| EchoStates.EchoNeverFails | packages/home-auto-client/src/home_auto_client/echo_server.py:489-510 | Every attempt of an echo along a remembered path encodes while timestamps fit 32 bits |
| EchoStates.RunAddsUp | packages/home-auto-client/src/home_auto_client/echo_server.py:559-591 | Over any run of received frames: every message taken is acknowledged once, every flooded PATH with a route is answered once, in order, and nothing else is published; every new message starts one echo |
| EchoStates.FreshExactly | packages/home-auto-client/src/home_auto_client/echo_server.py:142-153 | In any run a message taken is new if and only if nothing from its address with the hash of its bytes was accepted within the ttl |
| EchoStates.GainKeys | packages/home-auto-client/src/home_auto_client/echo_server.py:286-309 | A message taken is remembered, and echoed if new, under that address and hash |
| EchoStates.NamedExactly | packages/home-auto-client/src/home_auto_client/echo_server.py:228-253 | An advert names a node if and only if it decodes, is of another node, is signed by its key and is no older than the last one taken |
| EchoStates.CandidatesExactly | packages/home-auto-client/src/home_auto_client/echo_server.py:266-269 | The keys tried are those of the contacts filed under the second byte of a message whose first is the host's address |
| EchoStates.AckedExactly | packages/home-auto-client/src/home_auto_client/echo_server.py:164-171 | An ACK counts if and only if it has four bytes, and those are its hash |
| EchoStates.EveryMessageIsTaken | packages/home-auto-client/src/home_auto_client/echo_server.py:255-317 | A message that a contact's key opens is taken and acknowledged once, or else lost, and it is lost if and only if a contact without a shared secret was filed at its sender's address before all whose key opens it |
| EchoStates.EchoConfirmedExactly | packages/home-auto-client/src/home_auto_client/echo_server.py:164-171 | The peer's acknowledgement of an attempt, whatever repeaters attempt and acknowledgement passed, resolves the wait for it if and only if the attempt went out directly, although it carries the awaited hash either way |
| EchoStates.EchoIsEchoed | packages/home-auto-client/src/home_auto_client/echo_server.py:489-510 | Every attempt of an echo along a remembered path meets the premises of EchoConfirmedExactly |
| EchoStates.EchoReads | packages/home-auto-client/src/home_auto_client/echo_server.py:489-510 | However an attempt of an echo is relayed, the peer reads in it the reply composed from its text and the best path |
| EchoStates.EchoRoute | packages/home-auto-client/src/home_auto_client/echo_server.py:489-510 | The i-th packet of an echo, as decoded, goes directly along the best path's hops reversed for the configured direct attempts, and then floods; unacknowledged, all configured attempts are made |
| EchoStates.EchoTakesBestPath | packages/home-auto-client/src/home_auto_client/echo_server.py:155-162 | In any run from the first copy of a message until that expires, the direct packets of its echo go back along the hops of the earliest copy received with the most hops |
| EchoStates.PathAnswerOnAir | packages/home-auto-client/src/home_auto_client/echo_server.py:417-429 | The answer to a PATH goes directly along the route in it, with the route the packet took, sealed |
| EchoStates.PathAnswerReads | packages/home-auto-client/src/home_auto_client/echo_server.py:417-429 | The peer reads in it the route its own packet took |
| EchoServers.EchoServer.constructor | packages/home-auto-client/src/home_auto_client/echo_server.py:76-87 | A new server knows nobody and satisfies the invariant |
| EchoServers.EchoServer.AddContact | packages/home-auto-client/src/home_auto_client/echo_server.py:92-106 | The contact is filed; the answer says whether it is new or renamed |
| EchoServers.EchoServer.LoadContact | packages/home-auto-client/src/home_auto_client/echo_server.py:108-126 | A contact from the cache file or the configuration is filed as it is, whatever its key |
| EchoServers.EchoServer.HandleAdvert | packages/home-auto-client/src/home_auto_client/echo_server.py:228-253 | Only a signed advert of another node no older than the last changes anything; recorded timestamps never go back |
| EchoServers.EchoServer.HandleAck | packages/home-auto-client/src/home_auto_client/echo_server.py:164-171 | An ACK resolves the waiters of its hash, and nothing else happens |
| EchoServers.EchoServer.RememberPath | packages/home-auto-client/src/home_auto_client/echo_server.py:155-159 | The first copy is kept, then any with strictly more hops |
| EchoServers.EchoServer.RememberMessage | packages/home-auto-client/src/home_auto_client/echo_server.py:142-153 | The purging loop and the test compute both caches and the answer of the specification |
| EchoServers.EchoServer.Remember | packages/home-auto-client/src/home_auto_client/echo_server.py:289-292 | Both caches after one copy; it is new if and only if none with its key was accepted within the ttl |
| EchoServers.EchoServer.HandlePathMsg | packages/home-auto-client/src/home_auto_client/echo_server.py:397-437 | A flooded PATH with a route is answered once along that route, and the answer always encodes; no waiter is resolved |
| EchoServers.EchoServer.HandleTxtMsg | packages/home-auto-client/src/home_auto_client/echo_server.py:255-317 | Every copy that opens is acknowledged exactly once; an echo starts if and only if it is new; if no contact's key opens it, or the search ends at a key without a secret, nothing changes |
| EchoServers.EchoServer.Absorb | packages/home-auto-client/src/home_auto_client/echo_server.py:289-309 | One message is remembered with its path, acknowledged, and echoed if new |
| EchoServers.EchoServer.Receive | packages/home-auto-client/src/home_auto_client/echo_server.py:559-591 | Every received byte string of a modelled type has an outcome that the contacts and the history call for, with exactly that outcome's effect on the whole state, and keeps the invariant |
| EchoServers.EchoServer.ReceiveLoop | packages/home-auto-client/src/home_auto_client/echo_server.py:559-591 | Any sequence of received byte strings is such a run, of which the results on EchoStates hold |
| EchoServers.EchoServer.DeliverEcho | packages/home-auto-client/src/home_auto_client/echo_server.py:472-510 | One delivery for the path remembered under the message's key, or else for the packet the echo was started with: directly along it reversed and then by flooding; it ends acknowledged or with its last attempt |

## Left out

- MQTT, serial ports, SQLite, JSON, files, logging, the command line, environment variables, reconnect loops and status messages: publishing appends to a sequence, and tables are sequences and maps.
- Failing publishes and database calls: every one succeeds, so the handlers' catch-all is not reached.
- Key generation, signatures, and the inside of AES, SHA-256, HMAC and X25519: function values with the hypotheses above.
- Floating-point rounding: times and airtimes are reals, positions are integers in millionths of a degree.
- UTF-8: texts, names and passwords are their bytes, so replacement of invalid ones is not modelled.
- Timeout races inside asyncio: a wait whose future was resolved may still end as timed out, and is then reported as False.
- Aliasing of session objects: sessions are values in a map by public key, and a background push reads its route from that map when it starts.
- RoomServers.RoomServer.SyncClient: runs its pushes one after another as the source does, but nothing else runs between them; interleaving with handlers and other pushes is covered by PushRuns and Store.CursorIsMaximum.
- RoomServers.RoomServer.FanOut: its pushes run one after another, where the source interleaves them; that each publishes its own delivery under every interleaving is proved in PushRuns.
- RoomServers.RoomServer.ReceiveLoop: background tasks, pushes and waits, do not run between its frames; the table they share is covered by AckTable and PushRuns, and which tasks see what by Coverage.
- Coverage.NobodyIsMissed: says what tasks do once they have begun, not that every task begins; and a sync sends at most the first max_sync_posts of its selection.
- Wall-clock times past 32 bits: the room server's time in login answers is assumed to fit, as its encoder demands.
- EchoServers.EchoServer.Receive: ignores telemetry requests and group texts, whose handlers are not part of this model.
- Order of sessions with one address in the room server: those of a Python set, so arbitrary, and results hold for every order.
- Group text, telemetry requests, self adverts, the contact cache file and the observer's events: encoders and decoders of formats like those modelled, and formatting.
- Creation time and author prefix columns of posts: written and never read by the modelled code.
- EchoServers.EchoServer.DeliverEcho: assumes a non-negative number of direct attempts, at least one flood attempt, and timestamps that stay within 32 bits over the run; other deliveries are covered by Messaging.DeliverTxtMsgWithAck.
- EchoStates.BestPathOfRun: starts where the first copy of the message arrives; RunAddsUp leads there from any earlier state.
