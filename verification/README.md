# Roomly verification model

A Dafny model of the protocols and the pure logic of Roomly, with proofs over every run or
every input. `dafny verify dfyconfig.toml` verifies the whole project.

## What is modelled

**Reserve, book, cancel** (`BookingMachine`, `BookingLedger`, `BookingSafety`,
`DoubleBooking`, `BookingCrash`, `BookingService`). hotel-service locks a room's row for each
reserve and release, so each is one step. booking-service calls it over HTTP and then changes
its own table, and `cancel` reads the booking without a lock, so a request is a sequence of
steps. A history log of reserves and releases gives an exact ledger for each room.

**Sessions** (`SessionMachine`, `AtomicStore`, `SessionSafety`, `SessionLifetime`,
`SessionTakes`, `SessionRefinement`, `SessionService`). Refresh tokens are expiring Redis
keys; a take is a GET and then a DEL. The in-memory store of the unit tests, with expiry
added, is the atomic specification.

**Revocation** (`DenylistMachine`, `DenylistSafety`, `AuthGateway`). Logout reads the clock,
computes a lifetime in whole seconds and sets a deny key; the gateway verifies `exp` (section
4.1.4 of RFC 7519) and then asks for the key.

**Users** (`UserMachine`, `UserSafety`, `UserService`). Concurrent sign-ups and sign-ins over
a table with a UNIQUE email, feeding the session machine.

**Planner and configuration** (`Text`, `Config`, `Services`, `Planner`, `ScaleArgs`). The readers,
the plan and the Compose arguments of `scripts/roomly.mjs`. `Options` and `Sets` are small
helpers.

**Errors and media** (`GrpcErrors`, `MediaMachine`, `MediaSafety`, `MediaService`). How a
domain error crosses gRPC and becomes an HTTP error; uploads over storage and a database.

Each machine is a total step function: an event that is not enabled changes nothing, so every
sequence of events is a run, in every order and with every interleaving, and `Exec` gives its
last state. The classes hold the tables and stores the services update; each of their atomic
methods is proved to be a step of the machine, and the uninterrupted requests are proved
against their own contracts as well.

## Assumptions

- Tokens, token identifiers, request numbers, families and UUIDs are fresh when they are
  created, and a refresh token was never named before it was created. Hashing is injective,
  so a token stands for its key.
- One clock in milliseconds is shared by all services and Redis. A key is gone from the
  millisecond of its expiry on. Single Redis commands and single statements are atomic.
- `jwtVerify` rejects as soon as `exp` is not later than the current whole second.
- A crash, a timeout and a failed commit are one event: the request takes no further step of
  its own, but a hotel-service call it had already sent may still arrive.
- In the booking machine `initial` and `log`, and in the others the fields named as history,
  record the past; no step depends on them.
- A holder of a room is a reserve without a booking, a booking no cancel has released, or
  having been created unavailable. A double booking is two pending bookings of one room.
- Media ids are UUIDs: the database compares them without regard to case and returns them in
  lower case.

## Where the code falls short of the plain claim

The first seven are proved with an input and with the exact condition of the claim.

- A room can have two pending bookings, without any crash or direct call
  (`DoubleBookingHappens`), and with a crash even while it has a single holder
  (`CrashedCancelDoubleBooks`, `CrashedCancelStays`). `NeverDoubleBookedExactly` says when:
  exactly if a booking is inserted over a pending one in booking-service's own table, which
  `create_booking` does not consult. `CreateDoubleBooksExactly` and `HolderBrokenExactly`
  trace it to its causes.
- `take` is described as get and delete for one-time use (`refresh-token.store.ts`), but two
  takes that both read a token before either deletes it both succeed
  (`OverlapDoublesFamily`). `ReturnedOnceExactly`, `OneSuccessExactly` and
  `TakeIsAtomicExactly` say exactly when; a take that crashed after its GET does no harm.
- A refresh in flight outlives a logout (`LogoutLosesRace`); `LogoutEndsFamilyExactly`.
- A verification that passes `jwtVerify` just before `exp` and asks the denylist after the
  key has gone accepts a revoked token (`RevokedTokenAccepted`); `LateAnswerExactly`.
- `lookup` drops a row asked for by an id that is not in lower case, which `getById` finds
  (`UpperCaseIdIsDropped`); `LookupCompleteExactly`.
- A message that itself looks like a status is shortened by the gateway
  (`ShortenedMessage`); `MessageSurvivesExactly`.
- A message with leading white space loses it behind a status prefix; `StatusTextRoundTrip`.
- The in-memory store ignores the lifetime, while the Redis store skips a save whose lifetime
  is not positive. With expiry added the two agree, because such a token is never live.
- In `services.conf` a line `KEY=` sets the key to 0, because `Number('')` is 0. In `.env` a
  value of one quote character becomes empty, because `slice(1, -1)` of it is.

## Model

| member | source | states |
|---|---|---|
| `BookingLedger.RoomLedger` | backend/python/booking-service/app/routers/bookings.py:20-57 | for every room, on every interleaving with crashes and direct calls: bookings + creates past their reserve + reserves lost to a crash + direct reserves = effective releases + initial availability - current availability |
| `BookingLedger.ActiveBookingsBounded` | backend/python/hotel-service/app/routers/rooms.py:40-71 | pending + cancelled bookings of a room never exceed its effective releases plus one, so double bookings are bounded by surplus releases |
| `BookingLedger.BookingsBackedByReserves` | backend/python/booking-service/app/routers/bookings.py:22-29 | there is an injective, room-preserving map from bookings to committed reserves |
| `BookingLedger.StatusOnlyAdvances` | backend/python/booking-service/app/models/booking.py:20-22 | over any continuation of a run a booking keeps its room and user, goes at most from pending to cancelled, and is never confirmed |
| `BookingLedger.CancelledAfterOwnRelease` | backend/python/booking-service/app/routers/bookings.py:49-55 | a booking is cancelled exactly by committing requests, and each of them - several can commit one booking - had itself released its room |
| `BookingLedger.ReleasedExactly` | backend/python/booking-service/app/routers/bookings.py:46-55 | on every run a booking has been released if and only if it is cancelled or a cancel of it, alive or crashed, stands between its release and its commit |
| `BookingSafety.SingleHolder` | backend/python/booking-service/app/routers/bookings.py:20-57 | over whole runs: with no direct call on a room and no booking of it released twice, its holders number one when it is unavailable and none when it is available |
| `BookingSafety.HoldersExactly` | backend/python/hotel-service/app/routers/rooms.py:40-71 | on every run the holders of a room number 1 - availability + its surplus of effective releases |
| `DoubleBooking.HolderBrokenExactly` | backend/python/hotel-service/app/routers/rooms.py:40-71 | from any reachable state whose row and holders agree, a step makes them disagree if and only if it is a successful direct reserve, a direct release of a taken room, or a release of a taken room for a booking that is cancelled or that another cancel has released and not committed |
| `DoubleBooking.NeverDoubleBookedExactly` | backend/python/booking-service/app/routers/bookings.py:20-57 | over whole runs: a room never has two pending bookings if and only if none is ever inserted while the bookings table has a pending one of that room |
| `DoubleBooking.SecondPendingExactly` | backend/python/booking-service/app/routers/bookings.py:27-29 | the same for one step from any reachable state |
| `DoubleBooking.DoubleBookingExactly` | backend/python/booking-service/app/routers/bookings.py:20-57 | on every run the pending bookings of a room are those not released and those released by a cancel that has not committed, which counts them and decides whether there is at most one |
| `DoubleBooking.CreateDoubleBooksExactly` | backend/python/booking-service/app/routers/bookings.py:20-31 | from a single-holder state a create of an available room succeeds and leaves two pending bookings if and only if the bookings table already has a pending one of the room, which is then a half-cancelled one |
| `BookingSafety.SerialCancelsReleaseOnce` | backend/python/booking-service/app/routers/bookings.py:40-57 | if cancels of one booking neither overlap nor crash half-way, each booking is released at most once, whatever else interleaves |
| `BookingSafety.SerialCancelsNoDoubleBooking` | backend/python/booking-service/app/routers/bookings.py:40-57 | with such cancels and no direct calls, two pending bookings of a room coexist only while a cancel of one of them awaits its commit |
| `DoubleBooking.DoubleBookingHappens` | backend/python/booking-service/app/routers/bookings.py:40-57 | the unconditional claim fails: two cancels that both read `pending` leave a room with two pending bookings and nobody cancelling |
| `DoubleBooking.CrashedCancelDoubleBooks` | backend/python/booking-service/app/routers/bookings.py:49-55 | a cancel that crashes between its release and its commit leaves two pending bookings of a clean room with a single holder |
| `BookingCrash.CrashedCancelStays` | backend/python/booking-service/app/routers/bookings.py:49-55 | after that crash both bookings stay pending on every continuation in which nobody asks again to cancel them |
| `BookingCrash.StaysPendingExactly` | backend/python/booking-service/app/routers/bookings.py:40-55 | a pending booking stays pending on every continuation without a new cancel of it if and only if no live request is cancelling it |
| `BookingCrash.DeadStays` | backend/python/booking-service/app/routers/bookings.py:22-29 | on every continuation a crashed request stays dead and comes no further than a hotel call it had sent takes it: with a reserve or past a release it is stuck for ever |
| `BookingCrash.CrashKills` | backend/python/booking-service/app/routers/bookings.py:20-57 | a crash kills its request where it stands and changes nothing else |
| `BookingCrash.BookedExactly` | backend/python/booking-service/app/routers/bookings.py:22-29 | a step adds a booking if and only if it is the insert of a live request that holds a reserve, for that room and user and pending |
| `BookingCrash.CancelledExactly` | backend/python/booking-service/app/routers/bookings.py:49-55 | a step cancels a pending booking if and only if it is the commit of a live request past its release of it |
| `BookingCrash.ReservedExactly` | backend/python/booking-service/app/clients/hotel_client.py:7-18 | a create gets past its hotel call exactly when that finds the room available, and is refused with 409 exactly when not |
| `BookingCrash.ReleaseAlwaysLands` | backend/python/booking-service/app/clients/hotel_client.py:19-27 | the hotel call of a cancel always lands and frees the room, because the room of a booking exists |
| `BookingCrash.StartsExactly` | backend/python/booking-service/app/routers/bookings.py:41-47 | a request starts alive, a cancel with 404, 409 or on its way exactly by the booking it reads |
| `BookingService.CancelUndoesCreate` | backend/python/booking-service/app/routers/bookings.py:20-57 | from any reachable state, a create and the cancel of its booking give back every room and change no other booking |
| `BookingService.HotelService.CreateRoom` | backend/python/hotel-service/app/routers/rooms.py:28-38 | a new room enters the table with the availability it was given |
| `BookingService.HotelService.ReserveRoom` | backend/python/hotel-service/app/routers/rooms.py:40-56 | 200, 404 and 409 exactly by the row; only a 200 takes the room, and nothing else changes |
| `BookingService.HotelService.ReleaseRoom` | backend/python/hotel-service/app/routers/rooms.py:58-71 | frees the room whatever its state, 404 without a row |
| `BookingService.BookingService.Reserve` | backend/python/booking-service/app/clients/hotel_client.py:7-18 | the step of the machine: takes the room and keeps the reserve, or refuses with 409 on any client error |
| `BookingService.BookingService.Insert` | backend/python/booking-service/app/routers/bookings.py:27-29 | the step of the machine: a pending booking for the reserved room |
| `BookingService.BookingService.StartCancel` | backend/python/booking-service/app/routers/bookings.py:42-47 | the step of the machine: an unlocked read that answers 404, 409 or goes on |
| `BookingService.BookingService.Release` | backend/python/booking-service/app/clients/hotel_client.py:19-27 | the step of the machine: releases the room that was read, or refuses with 502 |
| `BookingService.BookingService.Commit` | backend/python/booking-service/app/routers/bookings.py:54-55 | the step of the machine: overwrites the status, whatever it has become |
| `BookingService.BookingService.CreateBooking` | backend/python/booking-service/app/routers/bookings.py:20-31 | uninterrupted: books exactly when the room is available, otherwise changes neither database |
| `BookingService.BookingService.CancelBooking` | backend/python/booking-service/app/routers/bookings.py:40-57 | uninterrupted: 404, 409, 502 or 200 exactly by the two tables, and both new tables |
| `SessionSafety.RotationExcessBounded` | backend/js/apps/user-service/src/application/use-cases/refresh-session/refresh-session.use-case.ts:24-31 | on every interleaving of GET and DEL, live tokens of a family + distinct tokens consumed <= 1 + successful refreshes |
| `SessionSafety.FamilyKeepsItsUser` | backend/js/apps/user-service/src/application/services/issue-session-tokens.service.ts:34-48 | whatever happens next, every token and request of a family names the user that opened it |
| `SessionSafety.DeletedForEver` | backend/js/apps/user-service/src/adapters/outbound/auth/redis-refresh-token.store.ts:27-37 | no take whose GET follows any DEL of that key ever succeeds |
| `SessionSafety.LogoutKillsFamily` | backend/js/apps/user-service/src/application/use-cases/logout/logout.use-case.ts:34-36 | a logout that deletes the only live token while no refresh of the family is in flight ends the family on every continuation |
| `SessionSafety.LogoutEndsFamilyExactly` | backend/js/apps/user-service/src/application/use-cases/logout/logout.use-case.ts:34-36 | no continuation refreshes the family if and only if the deleted token was its only live one and no refresh of it was in flight |
| `SessionSafety.SoundHolds` | backend/js/apps/user-service/src/adapters/outbound/auth/redis-refresh-token.store.ts:13-37 | stored, consumed and in-flight tokens agree with what was saved, and a family has one saved token for its opening and one for each successful refresh |
| `SessionLifetime.LivesExactly` | backend/js/apps/user-service/src/adapters/outbound/auth/redis-refresh-token.store.ts:18-30 | a token saved with a lifetime is answered with its record at every millisecond before that is over unless a DEL named it, and never afterwards; its user has an access token |
| `SessionLifetime.ClockIsTicks` | backend/js/apps/user-service/src/adapters/outbound/auth/redis-refresh-token.store.ts:13-25 | the clock that lifetimes are counted on moves with the passing milliseconds of a run and nothing else |
| `SessionLifetime.RevokedForEver` | backend/js/apps/user-service/src/adapters/outbound/auth/redis-refresh-token.store.ts:35-37 | a token that a logout named is refused by every later take |
| `SessionLifetime.ReadsExactly` | backend/js/apps/user-service/src/adapters/outbound/auth/redis-refresh-token.store.ts:28-30 | a take reads exactly a live token, with its record, and is refused otherwise |
| `SessionLifetime.TakesExactly` | backend/js/apps/user-service/src/adapters/outbound/auth/redis-refresh-token.store.ts:31-32 | only its own DEL takes a refresh on, and only a crash stops it |
| `SessionLifetime.IssuesExactly` | backend/js/apps/user-service/src/application/use-cases/refresh-session/refresh-session.use-case.ts:25-30 | only its own issue of a new token, in the same family and for the same user, completes a refresh |
| `SessionLifetime.OverStays` | backend/js/apps/user-service/src/application/use-cases/refresh-session/refresh-session.use-case.ts:24-31 | a refresh that ended, was refused or crashed does nothing more on any continuation |
| `SessionRefinement.TakeIsAtomic` | backend/js/apps/user-service/src/application/testing/in-memory-refresh-token.store.ts:18-26 | on every run without overlapping takes every take, crashed ones included, answers as the atomic store with expiry at its GET, and the stores agree on every live token outside a take |
| `SessionRefinement.TakeIsAtomicExactly` | backend/js/apps/user-service/src/adapters/outbound/auth/redis-refresh-token.store.ts:27-33 | the takes that complete - refused or returned - get the atomic store's answers, each between its GET and its DEL, if and only if no token is returned twice |
| `AtomicStore.AtomicTakeOnce` | backend/js/apps/user-service/src/application/testing/in-memory-refresh-token.store.ts:18-22 | in any order of atomic operations a taken token that is not saved again is answered by no other take |
| `SessionTakes.ReturnedOnceExactly` | backend/js/apps/user-service/src/adapters/outbound/auth/redis-refresh-token.store.ts:27-33 | on every run each token is returned at most once if and only if no DEL of a take names a token that a take has already deleted |
| `SessionTakes.OneSuccessExactly` | backend/js/apps/user-service/src/adapters/outbound/auth/redis-refresh-token.store.ts:27-33 | on every continuation that does not present the token again it is returned at most once if and only if at most one take has returned it or has read it and is alive |
| `SessionTakes.NonOverlappingReturnsOnce` | backend/js/apps/user-service/src/adapters/outbound/auth/redis-refresh-token.store.ts:27-33 | takes that do not overlap return each token at most once |
| `SessionTakes.WonOnceExactly` | backend/js/apps/user-service/src/adapters/outbound/auth/redis-refresh-token.store.ts:28-30 | each token is read by at most one take, returned or crashed, if and only if no GET finds a token that another take has read and not deleted |
| `SessionTakes.OneLiveToken` | backend/js/apps/user-service/src/application/use-cases/refresh-session/refresh-session.use-case.ts:24-31 | as long as no DEL is repeated a family has at most one live token |
| `SessionTakes.OverlapDoublesFamily` | backend/js/apps/user-service/src/adapters/outbound/auth/redis-refresh-token.store.ts:27-33 | two overlapping takes of one token leave a family with two live tokens |
| `SessionTakes.LogoutLosesRace` | backend/js/apps/user-service/src/application/use-cases/logout/logout.use-case.ts:34-36 | a refresh in flight outlives a logout |
| `SessionService.RedisRefreshTokenStore.Save` | backend/js/apps/user-service/src/adapters/outbound/auth/redis-refresh-token.store.ts:13-25 | sets the record with its expiry, and nothing for a lifetime that is not positive |
| `SessionService.RedisRefreshTokenStore.Take` | backend/js/apps/user-service/src/adapters/outbound/auth/redis-refresh-token.store.ts:27-33 | uninterrupted: answers exactly a live token, which is then gone |
| `SessionService.RedisRefreshTokenStore.Revoke` | backend/js/apps/user-service/src/adapters/outbound/auth/redis-refresh-token.store.ts:35-37 | removes the token and nothing else |
| `SessionService.InMemoryRefreshTokenStore.Save` | backend/js/apps/user-service/src/application/testing/in-memory-refresh-token.store.ts:10-16 | the save of the atomic store |
| `SessionService.InMemoryRefreshTokenStore.Take` | backend/js/apps/user-service/src/application/testing/in-memory-refresh-token.store.ts:18-22 | the take of the atomic store |
| `SessionService.InMemoryRefreshTokenStore.Revoke` | backend/js/apps/user-service/src/application/testing/in-memory-refresh-token.store.ts:24-26 | the removal of the atomic store |
| `SessionService.SessionService.Issue` | backend/js/apps/user-service/src/application/services/issue-session-tokens.service.ts:34-48 | signs for the user and saves a new token in the family |
| `SessionService.SessionService.Refresh` | backend/js/apps/user-service/src/application/use-cases/refresh-session/refresh-session.use-case.ts:24-31 | uninterrupted: succeeds exactly on a live token and exchanges it for the new one in the same family |
| `DenylistSafety.RevocationIsComplete` | backend/js/apps/user-service/src/application/use-cases/logout/logout.use-case.ts:29-32 | once a logout has passed its SET, at every later millisecond the deny key is live or the token has expired, for any delay and any number of repeated logouts |
| `DenylistSafety.KeyLifetime` | backend/js/libs/infra/src/redis/jwt-denylist.service.ts:34-37 | the deny key lives at least to `exp` and less than a second plus the delay before its SET longer |
| `DenylistSafety.LifetimeCovers` | backend/js/apps/user-service/src/application/use-cases/logout/logout.use-case.ts:30-31 | the floor arithmetic behind it, for every `exp`, reading and SET time |
| `DenylistSafety.AtomicVerifyRefuses` | backend/js/apps/gateway/src/auth/jwt-verifier.service.ts:30-49 | a verification with nothing between its two steps never accepts a revoked token |
| `DenylistSafety.VerifyAcceptsExactly` | backend/js/apps/gateway/src/auth/jwt-verifier.service.ts:30-49 | a verification with nothing between its two steps accepts a token if and only if it is signed, no logout has revoked it, and the clock is before its `exp` |
| `DenylistSafety.OnlyAcceptedAreRevoked` | backend/js/apps/gateway/src/auth/auth.controller.ts:116-132 | only tokens that a verification accepted are ever forwarded or revoked |
| `DenylistSafety.LateAnswerExactly` | backend/js/apps/gateway/src/auth/jwt-verifier.service.ts:44-46 | a verification past `jwtVerify` accepts a revoked token if and only if the clock has reached the key's expiry: never before `exp`, and always from a second and the delay of the SET after it |
| `DenylistSafety.AcceptedAfterLogoutHadExpired` | backend/js/apps/gateway/src/auth/jwt-verifier.service.ts:30-49 | on every run an acceptance after the revocation was given only after `exp` |
| `DenylistSafety.RevokedTokenAccepted` | backend/js/apps/gateway/src/auth/jwt-verifier.service.ts:30-49 | such an acceptance does occur when the denylist is asked only after the key has gone |
| `AuthGateway.JwtDenylist.Revoke` | backend/js/libs/infra/src/redis/jwt-denylist.service.ts:34-37 | sets an expiring key, and nothing for a lifetime that is not positive |
| `AuthGateway.Logout` | backend/js/apps/user-service/src/application/use-cases/logout/logout.use-case.ts:28-37 | every combination of optional inputs: which key is set and how long it covers `exp`, and which refresh token is removed |
| `AuthGateway.Gateway.VerifyAccessToken` | backend/js/apps/gateway/src/auth/jwt-verifier.service.ts:30-49 | uninterrupted: accepts exactly a signed, unexpired token without a live deny key |
| `AuthGateway.Gateway.LogoutAccessToken` | backend/js/apps/gateway/src/auth/auth.controller.ts:108-136 | claims are forwarded exactly for an accepted token, which is denied until its `exp`; otherwise the denylist is left alone |
| `AuthGateway.Gateway.LogoutSession` | backend/js/apps/gateway/src/auth/auth.controller.ts:108-136 | with either cookie present or not: a refused access token denies nothing, and the refresh token is removed in any case |
| `UserSafety.Invariant` | backend/js/apps/user-service/src/application/use-cases/sign-up/sign-up.use-case.ts:33-58 | what every step of concurrent sign-ups, sign-ins, refreshes and logouts keeps of the table, the requests, the events and the sessions |
| `UserSafety.EmailsDistinct` | backend/js/apps/user-service/src/adapters/outbound/persistence/typeorm/migrations/1737043200000-InitialUsers.ts:14 | stored emails are normalised and pairwise distinct on every run |
| `UserSafety.EventsNameUsersOnce` | backend/js/apps/user-service/src/application/use-cases/sign-up/sign-up.use-case.ts:50-55 | each published event names a saved user with its email, and no user is announced twice |
| `UserSafety.LoserLeavesNoTrace` | backend/js/apps/user-service/src/application/use-cases/sign-up/sign-up.use-case.ts:34-57 | a sign-up that lost at the look-up or at the constraint publishes and issues nothing, ever |
| `UserSafety.SecondSignUpLoses` | backend/js/apps/user-service/src/application/use-cases/sign-up/sign-up.use-case.ts:34-50 | once an email is saved, every later or racing sign-up of it, however typed, is refused |
| `UserSafety.SignInFindsItsUser` | backend/js/apps/user-service/src/application/use-cases/sign-in/sign-in.use-case.ts:26-38 | however an email is typed and whatever happened since it was saved, sign-in reaches exactly the user that has it |
| `UserSafety.SignInRefusedExactly` | backend/js/apps/user-service/src/application/use-cases/sign-in/sign-in.use-case.ts:26-36 | a sign-in is refused if and only if the password does not match or no row has the email |
| `UserSafety.SignInOpensItsSession` | backend/js/apps/user-service/src/application/use-cases/sign-in/sign-in.use-case.ts:26-38 | a sign-in that matched opens a session for exactly its user, with the new token in the new family |
| `UserSafety.OpenedExactly` | backend/js/apps/user-service/src/application/services/issue-session-tokens.service.ts:34-48 | a step opens a session if and only if it is the issue of a request that published or matched, for its user and on record as issued to it |
| `UserSafety.IssuedToItsUser` | backend/js/apps/user-service/src/application/services/issue-session-tokens.service.ts:34-48 | every session a request opened is for the user of that request, which has finished |
| `UserSafety.CrashStops` | backend/js/apps/user-service/src/application/use-cases/sign-up/sign-up.use-case.ts:33-58 | a crash stops a request that has neither lost nor finished, and changes nothing else |
| `UserSafety.EndedStays` | backend/js/apps/user-service/src/application/use-cases/sign-up/sign-up.use-case.ts:33-58 | a request that stopped, lost or finished publishes and issues nothing more on any continuation |
| `Text.TypedDifferently` | backend/js/apps/user-service/src/application/use-cases/sign-in/sign-in.use-case.ts:27 | white space around an email and the case of its letters do not matter to the look-up |
| `Text.NormaliseDistinguishes` | backend/js/apps/user-service/src/application/use-cases/sign-up/sign-up.use-case.ts:34 | emails that normalise alike differ in nothing else |
| `UserSafety.SessionsNameUsers` | backend/js/apps/user-service/src/application/use-cases/sign-in/sign-in.use-case.ts:26-38 | every refresh record and every signed access token names a saved user |
| `UserSafety.SessionsAreARun` | backend/js/apps/user-service/src/application/services/issue-session-tokens.service.ts:34-57 | the sessions of every run are a run of the session machine, so its theorems hold of them |
| `UserService.UserRepository.Find` | backend/js/apps/user-service/src/adapters/outbound/persistence/typeorm/user/user.typeorm-repository.ts:26-31 | the row whose email is the lower-cased argument, or none |
| `UserService.UserRepository.Save` | backend/js/apps/user-service/src/adapters/outbound/persistence/typeorm/user/user.typeorm-repository.ts:16-19 | inserts exactly when neither key nor email is taken |
| `UserService.UserService.SignUp` | backend/js/apps/user-service/src/application/use-cases/sign-up/sign-up.use-case.ts:33-58 | uninterrupted: succeeds exactly for a new normalised email, with its row, event and session; a refusal changes nothing |
| `UserService.UserService.SignIn` | backend/js/apps/user-service/src/application/use-cases/sign-in/sign-in.use-case.ts:26-36 | the step of the machine: refused without a matching row or password |
| `Config.LoadServicesConf` | scripts/roomly.mjs:111-133 | over any text each key has its last valid assignment, otherwise its default |
| `Config.InvalidLinesIgnored` | scripts/roomly.mjs:118-129 | a comment, blank or invalid line changes no key wherever it stands |
| `Config.PrintedConfReadsBack` | scripts/roomly.mjs:118-131 | printed entries read back as the last entry of each key |
| `Config.ScaleRoundTrip` | scripts/roomly.mjs:111-133 | printing any scale map, in any key order and with either line break, and parsing it gives the defaults overridden by that map |
| `Config.EmptyValueIsZero` | scripts/roomly.mjs:121-130 | a key with nothing after its `=` is set to 0 |
| `Config.AssignmentExactly` | scripts/roomly.mjs:121-130 | a key and a text assign the number the text is, and nothing if it is none |
| `Text.NumberOfExactly` | scripts/roomly.mjs:125-126 | exactly which texts are natural numbers: digits after an optional sign, where a minus sign allows only zero, and the empty text |
| `Text.NotANumber` | scripts/roomly.mjs:126-129 | any character that is neither a digit nor a leading sign makes the value invalid |
| `Config.NegativeIgnored` | scripts/roomly.mjs:126-129 | a negative count assigns nothing |
| `Config.NothingAssigned` | scripts/roomly.mjs:119-122 | blank lines, comments and lines without `=` assign nothing in either file |
| `Config.SpacesAround` | scripts/roomly.mjs:119-124 | white space around the line, the key and the value does not matter |
| `Planner.DefaultPlan` | scripts/roomly.mjs:49-62 | the defaults run every service once, except the load test |
| `Config.Environment.LoadEnvFile` | scripts/roomly.mjs:79-99 | never changes a set variable and gives each new key its first assignment with the quote rule |
| `Config.LoadIsIdempotent` | scripts/roomly.mjs:79-99 | a second load of the same file changes nothing, and the text determines the result |
| `Config.QuotedLineParses` | scripts/roomly.mjs:83-94 | a quoted value is read as it is, white space, `#`, `=` and quotes included |
| `Config.PlainLineParses` | scripts/roomly.mjs:88-94 | a value that does not start and end with the same quote character is read as it stands |
| `Config.LoneQuoteIsEmpty` | scripts/roomly.mjs:88-94 | one quote character alone is read as the empty value |
| `Config.PlainEnvReadsBack` | scripts/roomly.mjs:79-98 | unquoted variables written with either line break read back as the first entry of each key |
| `Config.PrintedEnvReadsBack` | scripts/roomly.mjs:79-98 | quoted variables written with either line break read back as the first entry of each key |
| `Planner.PlanBuilder.PlanFromConf` | scripts/roomly.mjs:142-204 | the loops build exactly the specified plan, its warnings and the default of LOADTEST_VUS |
| `Planner.PlanWellFormed` | scripts/roomly.mjs:142-204 | for every scale map: duplicate-free, counts for exactly the services, all positive, and one for helpers |
| `Planner.PlannedExactly` | scripts/roomly.mjs:158-201 | what is planned, entry by entry: observability with `obs`, exporters also with their datastore, helpers with their service, the load test with `loadtest` and `gateway`, each scalable service with its own count |
| `Planner.ConfEntries` | scripts/roomly.mjs:158-201 | planning reads each of its entries from the key of that name, and 0 without it |
| `Planner.PlanInOrder` | scripts/roomly.mjs:158-201 | services are planned in the fixed order |
| `Planner.PlanHolds` | scripts/roomly.mjs:142-204 | a plan holds exactly the services it considered and wants, with their counts |
| `Planner.PlanClosed` | scripts/roomly.mjs:162-201 | balancer and migrations exactly with their service, exporters exactly with observability and their datastore, load test only behind the balancer |
| `Planner.PortWarnings` | scripts/roomly.mjs:65-77 | a host-port warning names exactly a scalable service with a published port whose entry is above one |
| `Planner.PortWarningsExactly` | scripts/roomly.mjs:151-155 | the same for any list of considered services |
| `Planner.GatewayImageExactly` | scripts/roomly.mjs:224-235 | the shared image is needed if and only if some JS service is planned |
| `Planner.PlanMonotone` | scripts/roomly.mjs:142-204 | raising entries of the scale map removes no service and lowers no count |
| `Planner.ConfMonotone` | scripts/roomly.mjs:142-204 | the same for the parsed file, entry by entry |
| `ScaleArgs.ScaleArgsFor` | scripts/roomly.mjs:206-213 | the loop gives exactly the specified arguments |
| `ScaleArgs.DecodeHolds` | scripts/roomly.mjs:206-213 | decoding the arguments gives exactly the listed names that want more than one replica, with their counts |
| `ScaleArgs.ArgsLoseNothing` | scripts/roomly.mjs:206-213 | with default 1 every listed name gets its count back |
| `ScaleArgs.ArgsDistribute` | scripts/roomly.mjs:206-213 | the arguments of a concatenation are the concatenated arguments |
| `ScaleArgs.PartsPartition` | scripts/roomly.mjs:353-357 | the parts of `cmdDev` and of `cmdUp` partition the plan |
| `ScaleArgs.PartsExactly` | scripts/roomly.mjs:354-357 | the four JS services are the foreground part, everything else but the load test the detached part |
| `ScaleArgs.FilterKeepsOrder` | scripts/roomly.mjs:354-357 | each part keeps the order of the plan |
| `ScaleArgs.DevPassesEachCountOnce` | scripts/roomly.mjs:353-395 | each replica count above one is an argument exactly once over the two `up` commands of `cmdDev` and exactly once in that of `cmdUp`, and no other count is an argument at all |
| `ScaleArgs.ArgTimes` | scripts/roomly.mjs:206-213 | an argument is passed as often as its name is listed with that count, if above one, and otherwise never |
| `ScaleArgs.DevCountsReadBack` | scripts/roomly.mjs:353-395 | read back, the two commands of `cmdDev` set exactly the counts above one, and never both the same |
| `ScaleArgs.UpPassesEachCount` | scripts/roomly.mjs:307-314 | the `up` command of `cmdUp` passes every replica count above one |
| `GrpcErrors.StatusTextRoundTrip` | backend/js/libs/clients/src/user/grpc/map-grpc-error.ts:50-56 | for every code, name and message the code is recovered from "<code> <NAME>: <message>", and the message if and only if it has no leading white space |
| `GrpcErrors.ByNameNeverRuns` | backend/js/libs/clients/src/user/grpc/map-grpc-error.ts:52-55 | after a numeric prefix the status is that number, and the lookup by name never runs |
| `GrpcErrors.PrefixExactly` | backend/js/libs/clients/src/user/grpc/map-grpc-error.ts:51 | exactly which texts have a numeric status prefix and how it splits them |
| `GrpcErrors.NameDecides` | backend/js/libs/clients/src/user/grpc/map-grpc-error.ts:58-62 | a text without a numeric prefix gives the code of the first known name in it, and no status without one |
| `GrpcErrors.NameIncludedIsFirst` | backend/js/libs/clients/src/user/grpc/map-grpc-error.ts:58-62 | without a numeric prefix the first table name in the text decides, and none means no status |
| `GrpcErrors.FirstCodeIsFound` | backend/js/libs/clients/src/user/grpc/map-grpc-error.ts:33-43 | the first readable code along the nested `error` chain wins over every status and text |
| `GrpcErrors.StatusIsFirstCandidate` | backend/js/libs/clients/src/user/grpc/map-grpc-error.ts:33-63 | the status is the first of: the own code, the places of the nested error, the nested status, the text |
| `GrpcErrors.ReadCodeExactly` | backend/js/libs/clients/src/user/grpc/map-grpc-error.ts:23-31 | a code is the number it is, the number its text is, or the number of its name, and otherwise none |
| `GrpcErrors.CodeByNameExactly` | backend/js/libs/clients/src/user/grpc/map-grpc-error.ts:10-21 | the known status names and their numbers |
| `GrpcErrors.StatusExactly` | backend/js/libs/clients/src/user/grpc/map-grpc-error.ts:76-90 | over every error the HTTP status is 409, 401, 404 or 400 if and only if the status is 6, 16, 5 or 3, and 502 otherwise, with the message read from it |
| `GrpcErrors.DefaultMessageExactly` | backend/js/libs/clients/src/user/grpc/map-grpc-error.ts:65-70 | an error without a text of its own gets the text of the client |
| `GrpcErrors.RethrownExactly` | backend/js/apps/user-service/src/adapters/inbound/grpc/rethrow-as-rpc.ts:23-35 | whatever is thrown leaves as an RPC exception with its own text, one that is one already unchanged, and INTERNAL unless it is a domain error |
| `GrpcErrors.TransportPreservesMeaning` | backend/js/apps/user-service/src/adapters/inbound/grpc/rethrow-as-rpc.ts:5-35 | for every domain error the gateway answers with the status and message user-service itself gives, wherever on the chain the code appears |
| `GrpcErrors.TextAlonePreservesMeaning` | backend/js/libs/clients/src/user/grpc/map-grpc-error.ts:65-90 | the same when only the status text survived, in `message` or in `details` |
| `GrpcErrors.OtherErrorsAreBadGateway` | backend/js/apps/user-service/src/adapters/inbound/grpc/rethrow-as-rpc.ts:14-34 | any other error crosses as INTERNAL and becomes a 502, with the thrown message if and only if it survives the reading |
| `GrpcErrors.MessageSurvivesExactly` | backend/js/libs/clients/src/user/grpc/map-grpc-error.ts:65-73 | a carried message comes out unchanged if and only if, behind a status, it has no leading white space, and otherwise it is not empty and does not look like a status itself |
| `GrpcErrors.StatusLikeMessageIsStripped` | backend/js/libs/clients/src/user/grpc/map-grpc-error.ts:72 | a thrown message that looks like a status loses its beginning |
| `GrpcErrors.ShortenedMessage` | backend/js/libs/clients/src/user/grpc/map-grpc-error.ts:72 | the input: "6 X: hi" reaches the client as "hi" |
| `MediaSafety.MediaConsistent` | backend/js/apps/media-service/src/application/media-app.service.ts:39-72 | on every interleaving of uploads with crashes each row has its object, with its type and size, under a key of its own with a plain extension |
| `MediaSafety.RowsKept` | backend/js/apps/media-service/src/application/media-app.service.ts:39-72 | a saved row and the object under its key are never changed or lost |
| `MediaSafety.ExtensionShape` | backend/js/apps/media-service/src/application/media-app.service.ts:128-147 | every allowed type gets a dot and one to eight lower-case letters or digits |
| `MediaSafety.ExtensionKept` | backend/js/apps/media-service/src/application/media-app.service.ts:129-132 | a name's own plain extension is kept in lower case |
| `MediaSafety.ExtensionByType` | backend/js/apps/media-service/src/application/media-app.service.ts:133-146 | a name without a dot gets the extension of its type |
| `MediaSafety.ExtensionExactly` | backend/js/apps/media-service/src/application/media-app.service.ts:128-147 | what follows the last dot is kept in lower case if it is one to eight letters or digits, and otherwise the extension of the type stands in |
| `MediaSafety.AllowedExactly` | backend/js/apps/media-service/src/application/media-app.service.ts:14-20 | the allowed types are exactly the five that have an extension |
| `MediaSafety.BaseNameIsLastSegment` | backend/js/apps/media-service/src/application/media-app.service.ts:149-152 | the stored name is what follows the last slash or backslash |
| `MediaSafety.TruncateNameExactly` | backend/js/apps/media-service/src/application/media-app.service.ts:149-152 | the stored name is that segment, or its first 255 characters |
| `MediaSafety.LookupInOrder` | backend/js/apps/media-service/src/application/media-app.service.ts:80-89 | whatever order the database answers in, lookup gives the record of each listed, stored id exactly once, in the order in which the ids first occur |
| `MediaSafety.LookupIgnoresRowOrder` | backend/js/apps/media-service/src/application/media-app.service.ts:80-89 | lookup depends on the stored rows and the ids only, not on the order of the answer or the case asked for |
| `MediaSafety.LookupCompleteExactly` | backend/js/apps/media-service/src/application/media-app.service.ts:80-89 | lookup reports every stored row it was asked for if and only if each id that names one, in whatever case, also stands in the list in lower case |
| `MediaSafety.OtherCaseIsDropped` | backend/js/apps/media-service/src/application/media-app.service.ts:74-89 | a row asked for only in another case is found by `getById` and dropped by lookup |
| `MediaSafety.UpperCaseIdIsDropped` | backend/js/apps/media-service/src/application/media-app.service.ts:80-89 | the input: such an id |
| `MediaSafety.UniqueIsFirstOccurrences` | backend/js/apps/media-service/src/application/media-app.service.ts:81 | deduplication keeps exactly the non-empty ids, each once, ordered by first occurrence |
| `MediaSafety.PickedOf` | backend/js/apps/media-service/src/application/media-app.service.ts:85-88 | a record is reported exactly when some id of the list has a stored row |
| `MediaSafety.UploadLooksUp` | backend/js/apps/media-service/src/application/media-app.service.ts:39-89 | what was uploaded is what lookup reports, whatever happens between and after the two steps, for every list with the id and every order of the answer |
| `MediaSafety.UploadGetsById` | backend/js/apps/media-service/src/application/media-app.service.ts:39-78 | what was uploaded is what `getById` reports, on every continuation and for the id in any case |
| `MediaService.MediaService.Upload` | backend/js/apps/media-service/src/application/media-app.service.ts:39-72 | uninterrupted: 400 changes nothing; 201 adds one row with its object and changes no other row |
| `MediaService.MediaService.OpenContent` | backend/js/apps/media-service/src/application/media-app.service.ts:91-114 | 404 without a row or a file; in a consistent state exactly without a row |

## Left out

- JavaScript number syntax other than decimal naturals with an optional sign: hexadecimal, exponents, decimal points (so `5.0` reads as invalid here), values above 2^53. A text status code that is negative or a fraction is not modelled either.
- Upper and lower case outside ASCII, and database column lengths.
- `__proto__` and other inherited property names as keys of a scale map or an environment, and the empty environment name.
- GrpcErrors.ErrorMessage: `details` and `message` are text or missing; values of other types are not modelled.
- The shape tests of `toAccessTokenClaims`, issuer and audience: a signed token here always has well-formed claims.
- Password hashing and comparison (a boolean outcome), RSA signing and JWKS (a set of signed tokens).
- UserService.UserRepository.Save: on an id that is already stored the original updates that row, where this contract refuses; sign-up only saves fresh ids. The database error of a lost race is a refusal like any other, and which status a client sees for it is not modelled.
- Direct gRPC logout with an `exp` that is not the token's own: `AuthGateway.Logout` covers its effect, the machine only logouts that forward the token's own claims.
- Stay dates, which the code never compares; availability is per room.
- The hotels table and its 404 when a room is created; listing and reading endpoints; response bodies after `db.refresh`.
- Text that is not a UUID as a media id, and UUIDs written without hyphens or in braces, which the database would accept.
- Media owner, status, creation time, and storage failures other than a missing file.
- HTTP, gRPC, RabbitMQ, S3, Postgres and Redis wire code, retries and connections; Nest modules, throttling, cookies, validators, telemetry, Docker files and the process spawning and console output of `roomly.mjs`.
- The frontend, the notification service and the k6 scripts.
