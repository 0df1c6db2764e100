# Verification of the Isolation authentication server

A Dafny 4.11 model of the four parts of the server that carry its logic, with proofs.
`dafny verify dfyconfig.toml` checks everything.

* **SHA-256** (`Bytes`, `Words`, `Sha256Constants`, `Sha256Spec`, `Sha256`, `PasswordHash`,
  `Sha256Example`). FIPS 180-4 as
  recursive functions on one side; on the other the streaming, in-place implementation as a class over
  arrays. They are proved equal for every way of cutting a message into chunks. The code's length field
  has 32 bits, so the padding is the standard's if and only if the message has fewer than 2^29 octets;
  longer messages are covered too, by the padding the code really uses. What both sides share (the choice
  and majority functions, packing, the tables and how the rounds are wired) is fixed by properties of its own
  and by the standard's worked example.
* **Accounts and logins** (`RedisStore`, `Sessions`, `SessionTheorems`, `Answers`, `Server`). The handlers run on a
  flat store of string keys; each is proved to be one step on typed tables, and to leave every other key
  alone. The theorems are about every run of those steps, with connects, disconnects, socket destruction and
  restarts in any order. `Answers` says for each request exactly when it is accepted, which message each
  refusal carries and what is changed.
* **The same handlers cut into single Redis operations** (`Interleaving`), for several io threads and
  crashes between any two operations: what survives, and, for what does not, the exact condition and a
  schedule from start-up that breaks it (`LoginRaces` for exclusive login, `AccountRaces` for unchanging
  accounts, `DataFaults` and `DataSafety` for player data). `Serial` proves that a schedule whose handlers
  nobody interrupts is a run of the atomic handlers.
* **Transport** (`WriteQueue`, `WriteRaces`, `Framing`, `TokenPool`, `Accepting`, `Utf8`). The outgoing queue,
  with posts and completions as atomic steps and then with those steps taken apart, the frame codec, the
  token pool and its use by the accept loop, and the character counter.

Conventions. Octets are integers 0..255; in the account model a `char` of a string stands for one byte of a
`std::string`, and passwords are byte sequences because they are hashed. Unsigned 32-bit results that can
wrap are written with `U32`. A parsed protobuf message is a record and a parse failure is `None`. Times,
random draws and scan results are parameters. `Undefined` is the program dereferencing an empty optional.
A handler of a client runs only between that client's `AddClient` and the end of its disconnect handler,
since the next read is armed only after a handler returned.

What the proofs say that the code does not show at once:

* A client that logs in again without logging out keeps exclusive login intact but leaves one login record
  that nobody claims. The number of such records is exactly the number of repeated logins since start-up,
  and each locks its account until a restart (`LoginTwiceLocksTheFirst` is such a run).
* With interleaved operations two clients can both log in to one account, although `README.md:139` of the
  repository presents the login record as what prevents it. It happens in two ways, both shown from a
  start-up: both clients check before either has written its login record (`TwoLoginsRace`), or one checks
  while the other, logging out, has deleted the record and not yet its own login id (`LogoutWindowRace`).
  These are all the ways: while nobody passes the check with another client in such a window, login is
  exclusive under every interleaving, and every check passed in such a window can be completed to a double
  login (`CleanIffNoDoubleLogin`).
* With interleaved operations a finished registration can be overwritten (`RegistrationOverwritten`), but
  only by a registration of the same id that had already found it free. A record can still change if and
  only if some registration under way has a different value left to write (`FixedIffStable`).
* A crash between the first and second write of a registration, or a request that comes between them, makes
  player data dereference an empty optional (`CrashThenFault`, `ReadDuringRegistrationFaults`). In every state
  of every schedule, registrations under way included, it cannot happen before another registration begins if
  and only if every account is whole, no request has already missed a field, and nobody is about to create an
  account (`FaultFreeIffSafe`). And the only actions that bring it about are a crash while a registration
  under way has left a field open, and a read of such a field (`CarefulIffNoFault`).
* Taking a post and a completion each as one step (`WriteQueue`): `PostWrite` starts a write of the front
  message even while one is outstanding, so one more write of the message is started for each post made while
  it is at the front. Only the queue keeps a message's buffer alive, so such a write may outlive its buffer:
  every write in flight is of a message still queued if and only if no write completed while another was
  outstanding (`BuffersLiveIff`), and a post into an empty queue never causes that (`NoOverlapIffSingle`).
* On several io threads the steps are not atomic, because `PostWrite` does not run on the strand
  (`WriteRaces`). The order of messages survives. Exactly-once does not, not even with posts into an empty
  queue: one that falls between a completion's pop and its test is started twice (`EmptyQueueIsNotEnough`).
  Nor does it survive that every message is written: after one overlapping post a later message can leave
  the queue without a write of it ever being started (`OverlapCanLose`, `LostForever`). Each message is
  started exactly once if every post waits for an empty queue and for the completion handler to be done,
  and any other post can break it (`PoliteIffOnce`).

## Model

| member | source | states |
|---|---|---|
| `Sha256Constants.PrimeRowIsPrimes` | src/sha256.cpp:5-21 | the sixteen rows of primes are, in order and without gaps, exactly the primes from 2 to 311 |
| `Sha256Constants.RoundConstantsAreCubeRoots` | src/sha256.cpp:5-21 | every entry of the constant table is the first 32 fractional bits of the cube root of its prime in those rows |
| `Sha256Constants.InitialValueIsSquareRoots` | src/sha256.cpp:63-70 | the initial hash value is the square-root fractions of the first eight primes |
| `Sha256Spec.FoldConcat` | src/sha256.cpp:23-59 | hashing the blocks of a and then of b is hashing the blocks of a ++ b |
| `Sha256Spec.ZeroCountIsLeast` | src/sha256.cpp:104-108 | the padding adds the least number of zeros that section 5.1.1 of FIPS 180-4 allows |
| `Sha256Spec.PadInjective` | src/sha256.cpp:98-111 | padding is injective on messages of fewer than 2^64 bits |
| `Sha256Spec.ChIsChoice` | src/sha256.h:33 | the macro takes the bit of y where x is set and that of z elsewhere |
| `Sha256Spec.MajIsMajority` | src/sha256.h:34 | the macro sets a bit exactly where two of the three have it |
| `Sha256Spec.PackUnpack` | src/sha256.h:39-52 | packing the octets of a word gives the word back |
| `Sha256Spec.UnpackPack` | src/sha256.h:39-52 | unpacking the word of four octets gives them back, and they are its value with the most significant first |
| `Sha256Spec.PrimesInOrder` | src/sha256.cpp:5-21 | the t-th prime used is prime, the first is 2, and none is left out before the next |
| `Sha256Spec.RoundConstantIsCubeRoot` | src/sha256.cpp:5-21 | the constant of round t, as used, is the first 32 fractional bits of the cube root of the t-th prime |
| `Sha256Spec.InitialValueInOrder` | src/sha256.cpp:63-70 | each of the eight initial words, as used, is the square-root fraction of its own prime |
| `Sha256Example.Sha256OfAbc` | src/sha256.cpp:23-59 | the standard's one-block example: all 48 derived schedule words, all 64 rounds, and the digest ba7816bf...f20015ad of "abc" |
| `Sha256Example.DigestOfAbc` | src/sha256.cpp:117-132 | which the code's own padding gives, too |
| `Sha256Stream.MacrosAreSigmas` | src/sha256.h:31-38 | the shift-and-or macros are the standard's rotations and sigma functions, for every word |
| `Sha256Stream.ExpandSchedule` | src/sha256.cpp:33-38 | the array filled in place holds the recursively defined message schedule |
| `Sha256Stream.RoundInPlace` | src/sha256.cpp:43-53 | one turn of the sliding window is one round on named working variables |
| `Sha256Stream.RunRounds` | src/sha256.cpp:42-54 | 64 turns driven by the schedule array are the 64 rounds |
| `Sha256Stream.CompressInPlace` | src/sha256.cpp:31-58 | one iteration of the block loop is one compression of section 6.2.2 |
| `Sha256Stream.Context.Transform` | src/sha256.cpp:23-59 | for any number of consecutive blocks the hash value becomes the fold over them |
| `Sha256Stream.Context.Init` | src/sha256.cpp:61-73 | establishes the invariant with nothing fed in |
| `Sha256Stream.Context.Update` | src/sha256.cpp:75-96 | keeps the invariant (counters, unread tail, hash value of the whole blocks) with the chunk appended to what was fed in |
| `Sha256Stream.Context.Final` | src/sha256.cpp:98-115 | writes the digest of the message padded as the code pads it |
| `Sha256Stream.Context.FillFinalBlocks` | src/sha256.cpp:107-110 | memset, stop bit and length field leave exactly the final one or two blocks, inside the 128-byte buffer |
| `Words.Unpack32IsBigEndian` | src/sha256.h:39-45 | the shift-and-truncate macro that writes a word yields its four octets, most significant first |
| `Sha256Stream.FinalBlockCountIsLeast` | src/sha256.cpp:104-107 | one block or two is the standard's choice for every tail length |
| `Sha256Stream.PaddingIsStandardIff` | src/sha256.cpp:98-111 | the code's padding is the standard's if and only if the message has fewer than 2^29 octets |
| `Sha256Stream.StreamPadInjective` | src/sha256.cpp:98-111 | the code's padding is injective on messages of every length, wrapped length fields included |
| `Sha256Stream.HashChunks` | src/sha256.cpp:61-115 | for every sequence of chunks the digest depends on their concatenation only, and is FIPS 180-4 SHA-256 below 2^29 octets |
| `PasswordHash.HexInjective` | src/sha256.cpp:127-131 | two-digit hexadecimal printing loses nothing |
| `PasswordHash.HexReads` | src/sha256.cpp:130 | each octet is printed as two lower-case hexadecimal digits that read back as it |
| `PasswordHash.PrintedEqualIff` | src/Server.cpp:220 | comparing stored and computed strings is comparing digests |
| `PasswordHash.PrintDigest` | src/sha256.cpp:127-130 | overlapping sprintf calls leave the printed digest and one terminator |
| `PasswordHash.PasswordHashOf` | src/sha256.cpp:117-132 | returns the printed digest, which is that of FIPS 180-4 below 2^29 octets |
| `RedisStore.OperationsKeepNoEmptyHash` | src/redisService.cpp:114-144 | no operation leaves a key without fields |
| `RedisStore.DecimalInjective` | src/Server.cpp:53 | printed tokens are distinct for distinct tokens |
| `RedisStore.DecimalReads` | src/Server.cpp:53 | printed numbers are decimal digits without a leading zero and read back |
| `RedisStore.RenderInjective` | src/Server.cpp:141-211 | keys of the three families never collide, within a family or across, for any id strings |
| `RedisStore.FlatKeys` | src/Server.cpp:141-211 | the tables are the flat keys "client:" and token, "id:" and id, "logined:" and id |
| `RedisStore.GetCommutes` | src/redisService.cpp:73-134 | reading a rendered key is reading the typed table |
| `RedisStore.SetCommutes` | src/redisService.cpp:114-117 | setting a field under a rendered key is setting it in the typed table and changes no key outside the three families |
| `RedisStore.HashDelCommutes` | src/redisService.cpp:141-144 | deleting a field likewise, key removal included, and no other key |
| `RedisStore.DelCommutes` | src/redisService.cpp:78-81 | deleting a key likewise |
| `RedisStore.StoreDetermined` | src/Server.cpp:141-211 | the typed tables and the keys outside the three families together determine the store, so the contracts below leave nothing open |
| `ServerImpl.Server.AddClient` | src/Server.cpp:40-56 | is the connect step on the typed tables, and changes no key outside them |
| `ServerImpl.Server.HandleRequestCreationAccount` | src/Server.cpp:129-199 | the answer for every error case, and the registration step: one whole record or no change; no key outside the tables changes |
| `ServerImpl.Server.HandleRequestLogin` | src/Server.cpp:201-262 | the answer for every error case, and the login step on store and memory; no key outside the tables changes |
| `ServerImpl.Server.HandleRequestPlayerData` | src/Server.cpp:264-335 | the answer, with undefined behaviour as a result of its own; the store is not changed |
| `ServerImpl.Server.LogoutClient` | src/Server.cpp:349-373 | is the logout step, including the two cases that do nothing; no key outside the tables changes |
| `ServerImpl.Server.OnDisconnect` | src/Server.cpp:110-124 | logout, then record and client removed together; no key outside the tables changes |
| `ServerImpl.StartUp` | src/main.cpp:64-75 | from any store, for any order and repetition of scan results, removes exactly the client and login keys and leaves a state every run may start from |
| `Sessions.ApplyKeepsInv` | src/Server.cpp:21-373 | every event keeps: clients are the client records, and each agrees with its record and its login record |
| `Answers.RegisterAcceptedIff` | src/Server.cpp:144-182 | a registration is answered true if and only if it parsed, id, password and nickname have length two or more, and the id is free |
| `Answers.RegisterRefusals` | src/Server.cpp:144-188 | exactly when each refusal message is given |
| `Answers.RegisterEffect` | src/Server.cpp:165-173 | a refusal changes nothing; an acceptance stores exactly digest, nickname and colour |
| `Answers.AccountsWereRegistered` | src/Server.cpp:144-173 | in every run each account not there at start-up is the record of an accepted registration, with three long enough fields |
| `Answers.LoginAcceptedIff` | src/Server.cpp:215-244 | a login is answered true if and only if the account is there, its stored password is the printed digest, and no login record is there |
| `Answers.LoginRefusals` | src/Server.cpp:215-250 | exactly when each refusal message is given, always with a false result |
| `Answers.LoginUndefinedIff` | src/Server.cpp:220 | it is undefined if and only if the account has no password |
| `Answers.LoginEffect` | src/Server.cpp:231-241 | without acceptance nothing changes; an acceptance changes the client record, one login record and one key in memory, and what they hold |
| `Answers.UnknownIdRefused` | src/Server.cpp:215-250 | in every run a login that did not parse gets "parsingError", one to an id never stored gets "idDoesNotExsist", both false and without a change |
| `Answers.PlayerDataGivenIff` | src/Server.cpp:278-318 | where it is defined, player data is given if and only if the client is logged in to a stored account |
| `Answers.PlayerDataRefusals` | src/Server.cpp:278-325 | exactly when each refusal message is given, always with a false result and no data |
| `Answers.NeedLoginUntilLogin` | src/Server.cpp:284-291 | in every run, from connect or logout until the client's own next accepted login, every request is answered "needLogin", whatever others do |
| `Answers.PlayerDataAnswered` | src/Server.cpp:278-325 | in every run the answer to every request; "invalidToken" and "invalidId" never occur |
| `Answers.RefusalChangesNothing` | src/Server.cpp:129-335 | in every run a false result leaves store, memory and sockets as they were |
| `Answers.ConnectEffect` | src/Server.cpp:40-56 | a connect writes one record with the time, and an empty login key |
| `Answers.LogoutEffect` | src/Server.cpp:349-373 | a logout removes the login record and the login id, sets the key in memory to "noLogined", and changes nothing else |
| `Answers.DisconnectEffect` | src/Server.cpp:110-124 | a disconnect removes the client, its record and its login record, and nothing else |
| `Answers.MemoryKeyAlways` | src/Server.cpp:240-369 | in every run the key in memory is the login's, "noLogined" after a login has ended, and empty before the first |
| `SessionTheorems.ExclusiveLogin` | src/Server.cpp:215-240 | in every run no two connected clients have the same login id |
| `SessionTheorems.MemoryAgreesWithStore` | src/Server.cpp:237-240 | in every run connected tokens, client records, login keys in memory and login records agree |
| `SessionTheorems.Conservation` | src/Server.cpp:225-240 | in every run login records are the logged-in clients plus the repeated logins since start-up |
| `SessionTheorems.OrphansAreRelogins` | src/Server.cpp:231-241 | the unclaimed login records are exactly as many as the repeated logins |
| `SessionTheorems.TablesAreInverse` | src/Server.cpp:360-372 | in every run there was no repeated login since start-up if and only if, for every id, a login record is there exactly when a client claims it and the record names that client |
| `SessionTheorems.OrphanedAccountIsLocked` | src/Server.cpp:225-229 | once unclaimed, a login record refuses every login to its account until a restart, and the exact answer: loginedAlready to the password stored when it was orphaned |
| `SessionTheorems.LoginTwiceLocksTheFirst` | src/Server.cpp:215-240 | after any start-up at which two ids are free: a run with one repeated login, exactly one unclaimed record, and the right password refused |
| `SessionTheorems.AccountKept` | src/Server.cpp:159-174 | a stored account is there unchanged ever after, restarts included |
| `SessionTheorems.SecondRegistrationRefused` | src/Server.cpp:159-163 | a registered id is refused to everybody ever after and the attempt changes nothing |
| `SessionTheorems.LoginAfterRegistration` | src/Server.cpp:215-244 | after a registration every login answer is decided by the digest and by the presence of a login record |
| `SessionTheorems.PlayerDataWhileLoggedIn` | src/Server.cpp:278-317 | from login to logout, disconnect or next login, player data comes from that account whatever others do, and is undefined if and only if the account lacks a field |
| `SessionTheorems.PlayerDataIsWhatWasRegistered` | src/Server.cpp:308-318 | it is the nickname and colour given at registration |
| `SessionTheorems.NewUserGetsThrough` | src/Server.cpp:40-318 | after any start-up at which an id is free, connecting, registering it, logging in and reading the player data back all succeed |
| `SessionTheorems.NeverUndefined` | src/Server.cpp:220-317 | with complete accounts at start-up no optional is ever dereferenced empty |
| `Interleaving.OperatesIffAccepted` | src/Server.cpp:144-159 | a registration performs an operation exactly if it would be accepted with a free id |
| `Interleaving.ActKeepsOpInv` | src/Server.cpp:171-372 | what each single Redis operation, arrival or crash keeps |
| `Interleaving.InterleavingSafety` | src/Server.cpp:171-240 | from every start-up, under every interleaving with crashes: every login id names an account and "invalidId" is never answered; and if the accounts had passwords at start-up, all do and login never dereferences an absent one |
| `Interleaving.LoginFaultFreeIff` | src/Server.cpp:220 | after a start-up no login can ever dereference an absent password if and only if every account has one |
| `Interleaving.RegisterUninterrupted` | src/Server.cpp:159-173 | a registration nobody interrupts is the atomic step |
| `Interleaving.LoginUninterrupted` | src/Server.cpp:215-240 | a login nobody interrupts is the atomic step, faults included |
| `Interleaving.LogoutUninterrupted` | src/Server.cpp:349-373 | a logout or disconnect nobody interrupts is the atomic step |
| `Interleaving.DataUninterrupted` | src/Server.cpp:278-317 | a player-data request nobody interrupts faults exactly when the atomic one does |
| `Serial.HandlerIsEvent` | src/Server.cpp:129-373 | each handler run to its end is its atomic event, and it faults if and only if that event's answer is undefined |
| `Serial.UninterruptedIsAtomic` | src/Server.cpp:40-373 | every schedule whose handlers nobody interrupts is one run of the atomic handlers: its events are the schedule's handlers in the order they began, and at every moment between handlers the run has reached the same store and clients by the events completed so far |
| `LoginRaces.ActKeepsRaceInv` | src/Server.cpp:225-372 | what each clean operation keeps: claims of distinct clients differ, and a login id without its login record is in one of the two windows |
| `LoginRaces.ExclusiveWhileClean` | src/Server.cpp:225-240 | under every interleaving and crash in which nobody passes the check while another client is in a window of that account, no two clients have the same login id |
| `LoginRaces.UncleanCheckDoubles` | src/Server.cpp:225-238 | a check passed in such a window is completed to a double login by at most two writes |
| `LoginRaces.CleanIffNoDoubleLogin` | src/Server.cpp:225-240 | after any clean schedule, the next action is clean if and only if no clean continuation ends in a double login |
| `LoginRaces.TwoLoginsRace` | src/Server.cpp:225-238 | from any start-up on an account that can be logged in to, a schedule in which two clients check before either writes logs both in |
| `LoginRaces.LogoutWindowRace` | src/Server.cpp:370-372 | from any such start-up, a schedule in which a client checks between the two writes of another's logout leaves both with the login id |
| `AccountRaces.StableForever` | src/Server.cpp:171-173 | in every schedule, crashes included, a record with which all pending registration writes agree is the same ever after |
| `AccountRaces.SettledForever` | src/Server.cpp:159-174 | in every schedule an account that nobody is registering never changes again |
| `AccountRaces.FixedIffStable` | src/Server.cpp:159-174 | from any state a record can still change if and only if a pending registration write disagrees with it |
| `AccountRaces.RegistrationOverwritten` | src/Server.cpp:159-173 | for any two valid requests for an id free at start-up, a schedule in which the first is stored whole and finished and the second then replaces it |
| `DataFaults.NoFaultWhileCareful` | src/Server.cpp:308-317 | with whole accounts at start-up, no crash while a registration under way has left a field open and no read of such a field, player data never dereferences an empty optional, whatever the interleaving |
| `DataSafety.CarefulIffNoFault` | src/Server.cpp:308-317 | after any such schedule on accounts whose passwords a registration stored, the next action is of that kind if and only if no such continuation after it ends in a fault |
| `DataSafety.FaultFreeIffSafe` | src/Server.cpp:159-317 | in every state of every schedule from such passwords, no continuation without a new registration faults if and only if every account is whole, no request has missed a field and nobody is about to create an account |
| `DataSafety.FaultFreeIffComplete` | src/Server.cpp:308-317 | in particular after a start-up: if and only if every account is whole |
| `DataFaults.CrashThenFault` | src/Server.cpp:171-173 | from any start-up with whole accounts and a free id, a schedule with a crash after the first write that ends in a fault |
| `DataFaults.ReadDuringRegistrationFaults` | src/Server.cpp:171-173 | and one without a crash, in which another client logs in and reads between the first two writes |
| `WriteQueue.ClientSocket.PostWrite` | src/ClientSocket.cpp:217-231 | append, then start a write of the front message even if one is outstanding |
| `WriteQueue.ClientSocket.OnWriteComplete` | src/ClientSocket.cpp:87-95 | pop, then start the next write if there is one |
| `WriteQueue.RunShape` | src/ClientSocket.cpp:72-127 | in every run the queue is the part of the posted messages not yet popped and every start is of a posted message |
| `WriteQueue.StartsVisitInOrder` | src/ClientSocket.cpp:72-103 | starts visit posted messages in order, skip none that came to the front, and reach the front |
| `WriteQueue.StartCount` | src/ClientSocket.cpp:217-231 | each message is started once when it comes to the front and once more per post made while it is there |
| `WriteQueue.RepeatsIffOverlap` | src/ClientSocket.cpp:217-231 | starts outnumber the messages that came to the front if and only if some post found the queue non-empty |
| `WriteQueue.NoOverlapExactlyOnce` | src/ClientSocket.cpp:217-231 | if no post overlaps, the started messages are exactly the posted ones |
| `WriteQueue.BuffersLiveIff` | src/ClientSocket.cpp:79-95 | whichever outstanding write completes, every write in flight was at every moment of a message still queued if and only if no write completed while another was outstanding |
| `WriteQueue.NoOverlapIffSingle` | src/ClientSocket.cpp:217-231 | no post overlapped if and only if no write completed beside another and at most one is outstanding |
| `WriteQueue.SecondPostLosesFirst` | src/ClientSocket.cpp:79-95 | after two posts and one completion a write in flight is of a message no longer queued |
| `WriteQueue.NeverStranded` | src/ClientSocket.cpp:87-95 | a non-empty queue always has a write outstanding |
| `WriteQueue.Drains` | src/ClientSocket.cpp:87-95 | without new posts, exactly how many completions follow, all possible, and what is queued after each |
| `WriteRaces.PostIsAtomic` | src/ClientSocket.cpp:217-231 | push and start with nothing in between are the atomic post |
| `WriteRaces.CompletionIsAtomic` | src/ClientSocket.cpp:87-95 | pop, test and start with nothing in between are the atomic completion |
| `WriteRaces.OrderSurvives` | src/ClientSocket.cpp:72-127 | under every interleaving of posts with completions, starts are of posted messages, in the order of posting, never beyond the front |
| `WriteRaces.NothingLostWhileSingle` | src/ClientSocket.cpp:87-95 | while each completion is of the only outstanding write, no message leaves the queue unstarted and a write in flight is of the front message |
| `WriteRaces.TwoOutstandingCanLose` | src/ClientSocket.cpp:87-95 | from every state with two writes outstanding, a continuation in which the next message posted leaves the queue unstarted |
| `WriteRaces.OverlapCanLose` | src/ClientSocket.cpp:217-231 | such a run from a new socket |
| `WriteRaces.LostForever` | src/ClientSocket.cpp:120-127 | a message that left the queue unstarted is never started later |
| `WriteRaces.PoliteExactlyOnce` | src/ClientSocket.cpp:217-231 | if every post waits for an empty queue and an idle completion handler, messages are started exactly once each, in order |
| `WriteRaces.PoliteIffOnce` | src/ClientSocket.cpp:217-231 | after any such run, the next step keeps to that if and only if every such continuation starts each message once and loses none |
| `WriteRaces.EmptyQueueIsNotEnough` | src/ClientSocket.cpp:87-95 | a run in which every post finds the queue empty and a message is started twice |
| `Framing.AppendInt` | src/util.cpp:5-11 | four arithmetic shifts and masks append the two's-complement octets of the value, least significant first, for negative values too |
| `Framing.Int32RoundTrip` | src/util.cpp:5-11 | reading those octets back gives the value, whatever surrounds them |
| `Framing.BuildFrame` | src/util.cpp:13-18 | appends magic, type and total length before the payload |
| `Framing.Reader.OnRead` | src/ClientSocket.cpp:42-60 | overwrites the start of the buffer and recognises as the code does for reads of any length; from 12 octets on only the octets read matter |
| `Framing.FrameDecodes` | src/ClientSocket.cpp:42-60 | a read holding exactly one frame delivers its type and payload |
| `Framing.DecodesOnlyFrames` | src/ClientSocket.cpp:42-60 | a read is delivered as (type, payload) if and only if it is that frame |
| `Framing.FramesArePrefixFree` | src/ClientSocket.cpp:52-60 | a proper prefix of a frame or a frame with more behind it is not delivered |
| `Framing.FrameLayout` | src/util.cpp:13-18 | octet by octet: the letters "prot", type and total length with the least significant octet first, payload |
| `Framing.RecognisedIff` | src/ClientSocket.cpp:42-60 | what was read is handed on if and only if the buffer starts with the letters "prot" and the length there is that of the read, with the type at octet 4 |
| `Framing.DecodedIff` | src/ClientSocket.cpp:42-60 | the same for a read of at least a header, on the octets read |
| `TokenPool.TokenPool64.Allocate` | src/tokenPool.h:14-24 | returns the first draw not in use and records it |
| `TokenPool.TokenPool64.Release` | src/tokenPool.h:26-30 | forgets exactly that token |
| `TokenPool.LiveTokensDistinct` | src/tokenPool.h:14-30 | in every run and for every random stream live tokens are distinct and non-zero and the pool records exactly them |
| `TokenPool.NewKeyIsFresh` | src/ClientSocket.cpp:17 | the client key of a new socket is that of no live one |
| `TokenPool.AllocationEndsIff` | src/tokenPool.h:16-23 | the loop reaches a first unused draw if and only if the stream holds one ahead |
| `Accepting.PoolDischargesFreshness` | src/main.cpp:101-108 | every run of pool and server together, for every random stream, is a run of the login protocol: each new client has a token no socket holds |
| `Utf8.Utf8Length` | src/util.cpp:41-58 | the loop ends on every input and returns the recursive count, or fails where the code throws |
| `Utf8.LengthOfEncoding` | src/util.cpp:41-58 | counting the RFC 3629 encoding of any scalar values and then any other octets adds up, failures included |
| `Utf8.LengthCountsScalars` | src/util.cpp:41-58 | on encoded text the result is the number of scalar values |
| `Utf8.CharLengthByRange` | src/util.cpp:48-52 | the length each first octet announces, and the octets for which the code throws |
| `Utf8.LengthIff` | src/util.cpp:41-58 | on every input: n is returned if and only if n announced lengths lead to the end or behind it, and the code throws if and only if they lead to an octet that is no first octet |

## Left out

- Sha256Stream.Context.Update: chunks of 2^31 octets or more, where the int block offset overflows.
- PasswordHash.PasswordHashOf: passwords of 2^31 octets or more, for the same reason; a request comes in one read of at most 4096.
- Framing.Reader.OnRead: for reads shorter than a header it states the recogniser's result on the buffer, left-over octets included, and no round trip.
- TokenPool.TokenPool64.Allocate: the endless loop on a stream that never yields an unused token; the precondition names a place where it does, and by `AllocationEndsIff` there is one whenever the loop ends.
- WriteQueue.Drains: failed writes, after which the source starts no further write, and the order in which Asio sends overlapping writes.
- Transform and the final padding read message bytes as values, not through pointers, so aliasing of the message with the context is not modelled.
- Boost.Asio sockets, strands, timers, the acceptor and signals; only post, completion, read and disconnect events remain.
- redis++ itself, keys that are not hashes, and expiry; `Persist` changes nothing here.
- Protobuf parsing and serialisation, and the bytes of the answers.
- In the interleaving model the login key in memory, which no Redis operation reads, and start-up as several operations; no client runs while it does.
- `Server::Stop`, `PrintStatus`, logging, dispatch by packet type, and the Redis set and plain-string operations, which no handler uses.
- The `deprecated` directory, deployment and tests.
