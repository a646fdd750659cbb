# NaturalGravity — a Dafny model of the gravity-field bookkeeping

NaturalGravity is a Space Engineers mod. It gives asteroids a spherical gravity field by spawning a hidden grid that carries a spherical gravity generator at the asteroid's centre. Each field pulls on the dynamic grids inside its radius, nudges a player flying with a jetpack, and shows "Entering/Leaving natural gravity" notices.

This project models the mod's bookkeeping in Dafny and proves properties of it. The physics engine, the chat commands and the file system stay outside the model.

The mod exists in two designs, and both are modelled.

**The first, list-based design** (`NaturalGravity.cs`, `Gravity.cs`):
- The session keeps a `List<Gravity>` of fields. `NaturalGravity.Session` holds that list, the two wrapping tick counters, the prefabs it asked the engine for and the messages it sent.
- Every tenth tick a round ends. When affect_ships is on and some field exists, the round rebuilds each field's member list. Every thirtieth round, whatever those settings, the session scans the asteroids: it spawns a field for each prefixed asteroid that has none, then closes fields that share a centre with an earlier one.
- It syncs fields by position with the messages `0;x;y;z;radius;strength` and `1;x;y;z` (module `LegacySync`).

**The second, id-based design** (`GravityPoint.cs`, `MultiplayerSync.cs`, `Utils.cs`):
- The registry is a dictionary from the entity id of each field's grid to the field (`GravityPoints.Registry`).
- Fields are synced by id with `0;id;x;y;z;radius;strength` and `1;id` (module `SyncMessages`).
- The receiver of these messages, as written, accepts neither message (see Findings).

**Shared by both designs:**
- The field rules (`FieldRules`, `FieldPass`): the inclusive radius test, the radius and strength clamps, the effective-mass formula, the jetpack gate and the edge-triggered enter/leave flag.
- The asteroid measurements (`AsteroidUtils`): the radius and strength formulas, the level-of-detail recursion, and the triple loop that finds the tight box around the voxels with content, over an abstract 3-D byte array.
- The settings store (`Settings`, `SettingsState`): the twelve settings and their defaults, the `key=value` parser with type-directed TryParse and clamps, and the settings text with and without comments. Also the config-file line filter, the config-action byte, and the round trips text → parser over the network and through the file.

**How the model is written:**
- Classes stand where the source updates objects in place: the fields, the registry, the session and the settings store. Their methods are proved against functions on values. The properties are proved about those functions.
- Positions, masses and strengths are `real`, and radii, ids and counters are `int`. Float text is abstract: `Strings.RealFormat` pairs a printer with a parser. Round trips ask, value by value, that a real prints as a clean token and parses back (`Strings.Exact`).
- Int32, Int64 and Boolean text are modelled outright, with their round trips proved.
- Some helpers appear twice in the source with the same code. `NaturalGravity.cs:813-877` repeats `CalculateAsteroidRadius`, `CalculateAsteroidStrength` and `GetAsteroidData` from `Utils.cs:84-148`, differing only in white space. `NaturalGravity.cs:622-664` repeats the helpers `ParseVector`, `ParseInt` and `ParseFloat` of `MultiplayerSync.cs:191-244` (`ParseLong` is not repeated). Each pair is modelled once: in `AsteroidUtils`, and in `SyncMessages.ParseVector` and `Strings`.
- `Data/Scripts/NaturalGravity/Commands.cs`, `MyLogger.cs`, `NaturalGravityGenerator.cs` and `NaturalGravityReactor.cs` are not part of this model.

## Model

| member | source | states |
|---|---|---|
| Strings.Split | Data/Scripts/NaturalGravity/NaturalGravity.cs:541 | Split never returns an empty array and no piece holds the separator (so the "No data!" branch cannot run) |
| Strings.SplitJoin | Data/Scripts/NaturalGravity/MultiplayerSync.cs:97 | splitting the join of separator-free pieces gives the same pieces back |
| Strings.IndexOf | Data/Scripts/NaturalGravity/Settings.cs:454 | the result is the first position where the pattern occurs, or -1 exactly when it occurs nowhere |
| Strings.TryParseInteger | Data/Scripts/NaturalGravity/NaturalGravity.cs:644-653 | a parsed integer always lies in the range of the parsed type |
| Strings.Int32RoundTrip | Data/Scripts/NaturalGravity/NaturalGravity.cs:644-653 | a printed 32-bit integer parses back to itself |
| Strings.Int64RoundTrip | Data/Scripts/NaturalGravity/MultiplayerSync.cs:224-233 | a printed 64-bit integer parses back to itself |
| Strings.BoolToStringRoundTrip | Data/Scripts/NaturalGravity/Settings.cs:102 | "True"/"False" as printed by ToString parse back to the same bool |
| Strings.TrimStart | Data/Scripts/NaturalGravity/Settings.cs:95-96 | the white space removed from the front is all trim characters, and what is left starts with none |
| Strings.AsciiRoundTrip | Data/Scripts/NaturalGravity/Settings.cs:39 | decoding the ASCII bytes of a text gives it back iff every character is below 128 |
| Strings.TrimEnd | Data/Scripts/NaturalGravity/Settings.cs:95-96 | what is left is a prefix of the input with no trailing trim character, and everything removed is a trim character |
| Vectors.DistanceSquared | Data/Scripts/NaturalGravity/Gravity.cs:78 | the squared distance is non-negative and zero from a point to itself |
| Vectors.Center | Data/Scripts/NaturalGravity/Utils.cs:145 | the box centre is equidistant from both corners and lies inside any box that is not inverted |
| Vectors.AbsMax | Data/Scripts/NaturalGravity/Utils.cs:86 | AbsMax is one of the three absolute components and no smaller than any of them |
| FieldRules.InRadiusAlongAxis | Data/Scripts/NaturalGravity/Gravity.cs:76-79 | along an axis through the centre, an offset t is in the field iff -radius <= t <= radius: squared distance <= radius², boundary included |
| FieldRules.InRadiusGrows | Data/Scripts/NaturalGravity/GravityPoint.cs:247-250 | a point within a radius stays within any larger radius |
| FieldRules.ClampRadius | Data/Scripts/NaturalGravity/GravityPoint.cs:257-262 | the stored radius lies in [1, 999999999]; it equals the request inside that range and the nearer bound outside it |
| FieldRules.ClampStrength | Data/Scripts/NaturalGravity/GravityPoint.cs:264-269 | the stored strength lies in [0, 1]; it equals the request inside that range and the nearer bound outside it |
| FieldRules.ClampRadiusIdempotent | Data/Scripts/NaturalGravity/Gravity.cs:86-91 | setting a stored radius again stores the same radius |
| FieldRules.ClampStrengthIdempotent | Data/Scripts/NaturalGravity/Gravity.cs:93-98 | setting a stored strength again stores the same strength |
| FieldRules.GeneratorGravity | Data/Scripts/NaturalGravity/Gravity.cs:93-98 | the generator gravity SetStrength writes makes Update's acceleration exactly G * strength, and it is positive iff the strength is |
| FieldRules.EffectiveMass | Data/Scripts/NaturalGravity/GravityPoint.cs:186-191 | the effective mass never exceeds the real mass, equals it at or below the limit, is non-negative for non-negative inputs, and without a divisor is capped at a positive limit |
| FieldRules.EffectiveMassMonotone | Data/Scripts/NaturalGravity/Gravity.cs:125-130 | a heavier entity is never pulled with less effective mass |
| FieldRules.SelectExactly | Data/Scripts/NaturalGravity/NaturalGravity.cs:731-732 | the entity filter keeps exactly the listed bodies that pass its test |
| FieldRules.InFieldExactly | Data/Scripts/NaturalGravity/GravityPoint.cs:157-168 | an id is a member iff some listed body with that id lies within the radius, boundary included |
| FieldRules.PushesExactly | Data/Scripts/NaturalGravity/GravityPoint.cs:181-196 | the force pass pushes exactly the member entities that are neither closed nor marked for close, each with its effective mass |
| FieldRules.ApplyForces | Data/Scripts/NaturalGravity/Gravity.cs:120-135 | the loop over the member list produces exactly the pushes of the force-pass specification, in list order |
| FieldRules.JetpackBoosts | Data/Scripts/NaturalGravity/GravityPoint.cs:209-224 | the velocity is nudged iff jetpack > 0, the player is a character with the jetpack on, and hover mode is off or the dampeners are off |
| FieldRules.NotifyStep | Data/Scripts/NaturalGravity/GravityPoint.cs:199-233 | "Entering" iff the flag goes false→true, "Leaving" iff true→false; the flag only flips while notify is on, and then to whether the player is inside |
| FieldRules.NoticesAlternate | Data/Scripts/NaturalGravity/Gravity.cs:138-170 | over any run of updates the notices never repeat, and the first is "Leaving" iff the player started out notified |
| FieldPass.Idle | Data/Scripts/NaturalGravity/GravityPoint.cs:174-175 | an update stopped by the guard pushes nothing, shows nothing, boosts nothing and keeps the flag |
| FieldPass.UpdatePushes | Data/Scripts/NaturalGravity/Gravity.cs:118-136 | an active update pushes an entity iff ships are affected and it is a live member, with its effective mass |
| FieldPass.UpdateBoost | Data/Scripts/NaturalGravity/Gravity.cs:138-160 | an active update boosts the player iff the player is known, inside the radius and passes the jetpack gate |
| FieldPass.UpdateNotice | Data/Scripts/NaturalGravity/Gravity.cs:138-170 | an active update's notices are edge-triggered on the flag, and the flag is unchanged when the player is unknown or notices are off |
| GravityFields.RemovedTextFields | Data/Scripts/NaturalGravity/Gravity.cs:177-191 | Gravity.Remove's message splits into exactly the four fields `1;x;y;z` |
| GravityFields.Gravity.Create | Data/Scripts/NaturalGravity/Gravity.cs:57-69 | a null generator is refused; otherwise the new field sits on the generator's cell, with no members and no notice shown |
| GravityFields.Gravity.SetEnabled | Data/Scripts/NaturalGravity/Gravity.cs:81-84 | the generator is switched on or off as asked |
| GravityFields.Gravity.SetRadius | Data/Scripts/NaturalGravity/Gravity.cs:86-91 | returns and stores the clamped radius |
| GravityFields.Gravity.SetStrength | Data/Scripts/NaturalGravity/Gravity.cs:93-98 | returns the clamped strength and stores its generator gravity |
| GravityFields.Gravity.AddInRange | Data/Scripts/NaturalGravity/Gravity.cs:100-109 | appends the entity iff it is within the radius and returns that test; otherwise the list is unchanged |
| GravityFields.Gravity.Update | Data/Scripts/NaturalGravity/Gravity.cs:111-171 | nothing happens before init, or while the generator is off or has gravity <= 0; otherwise the effect is the active-update specification and the flag becomes its new value |
| GravityFields.Gravity.Remove | Data/Scripts/NaturalGravity/Gravity.cs:173-195 | the grid is closed; with sync it returns the `1;x;y;z` message for the grid's position, otherwise none |
| LegacySync.SyncCreated | Data/Scripts/NaturalGravity/NaturalGravity.cs:572-594 | a create is accepted only with exactly six fields |
| LegacySync.SyncRemoved | Data/Scripts/NaturalGravity/NaturalGravity.cs:596-607 | a remove is accepted only with exactly four fields |
| LegacySync.ReceivedSync | Data/Scripts/NaturalGravity/NaturalGravity.cs:538-570 | type 0 can only create, type 1 can only remove, and any other or unparsable type token yields nothing |
| LegacySync.CreatedTextFields | Data/Scripts/NaturalGravity/NaturalGravity.cs:509-521 | AddGravityPrefab's message splits into exactly `0;x;y;z;radius;strength` |
| LegacySync.CreatedRoundTrip | Data/Scripts/NaturalGravity/NaturalGravity.cs:574-593 | the create message has the six fields SyncCreated demands and decodes to the same position, radius and strength |
| LegacySync.RemovedRoundTrip | Data/Scripts/NaturalGravity/Gravity.cs:181-189 | Gravity.Remove's message has the four fields SyncRemoved demands and decodes to the same position |
| LegacySync.EncodeRoundTrip | Data/Scripts/NaturalGravity/NaturalGravity.cs:538-570 | every sendable command of the first design is received as itself |
| LegacySync.EncodeAscii | Data/Scripts/NaturalGravity/NaturalGravity.cs:523 | a command's message survives the ASCII byte encoding when its printed reals are ASCII |
| SyncMessages.ParseVector | Data/Scripts/NaturalGravity/MultiplayerSync.cs:191-211 | succeeds iff all three coordinates parse, and then yields them in order |
| SyncMessages.AsWrittenNeverCreates | Data/Scripts/NaturalGravity/MultiplayerSync.cs:128-164 | as written, no message ever leads to a create |
| SyncMessages.AsWrittenCreateFaults | Data/Scripts/NaturalGravity/MultiplayerSync.cs:140-151 | as written, a receive throws iff it is a six-field create whose id, position and radius parse (the read of args[6]) |
| SyncMessages.AsWrittenDropsCreate | Data/Scripts/NaturalGravity/MultiplayerSync.cs:130-134 | as written, the seven-field message CreateGravity sends is dropped |
| SyncMessages.AsWrittenDropsRemove | Data/Scripts/NaturalGravity/MultiplayerSync.cs:168-172 | as written, the two-field message RemoveGravity sends is dropped |
| SyncMessages.Created | Data/Scripts/NaturalGravity/MultiplayerSync.cs:128-152 | the corrected SyncCreated never throws and creates only from exactly seven fields |
| SyncMessages.Removed | Data/Scripts/NaturalGravity/MultiplayerSync.cs:166-177 | the corrected SyncRemoved never throws and removes only from exactly two fields |
| SyncMessages.Received | Data/Scripts/NaturalGravity/MultiplayerSync.cs:94-126 | never throws; a create needs type token 0 and a remove type token 1 |
| SyncMessages.CreateGravityTextFields | Data/Scripts/NaturalGravity/MultiplayerSync.cs:58-74 | CreateGravity's message splits into exactly the seven fields `0;id;x;y;z;radius;strength` |
| SyncMessages.RemoveGravityTextFields | Data/Scripts/NaturalGravity/MultiplayerSync.cs:81-92 | RemoveGravity's message splits into exactly the two fields `1;id` |
| SyncMessages.CreateGravityTextAscii | Data/Scripts/NaturalGravity/MultiplayerSync.cs:58-74 | CreateGravity's message survives the ASCII byte encoding when the printed reals are ASCII |
| SyncMessages.RemoveGravityTextAscii | Data/Scripts/NaturalGravity/MultiplayerSync.cs:81-92 | RemoveGravity's message always survives the ASCII byte encoding |
| SyncMessages.CreateRoundTrip | Data/Scripts/NaturalGravity/MultiplayerSync.cs:58-74 | the corrected receiver decodes a create message to the id, position, radius and strength sent |
| SyncMessages.RemoveRoundTrip | Data/Scripts/NaturalGravity/MultiplayerSync.cs:81-92 | the corrected receiver decodes a remove message to the id sent |
| GravityPoints.GravityPoint.Create | Data/Scripts/NaturalGravity/GravityPoint.cs:122-151 | a field exists iff the grid holds both a generator and a reactor; it sits at the generator, with no members |
| GravityPoints.GravityPoint.SetEnabled | Data/Scripts/NaturalGravity/GravityPoint.cs:252-255 | the generator is switched on or off as asked |
| GravityPoints.GravityPoint.SetRadius | Data/Scripts/NaturalGravity/GravityPoint.cs:257-262 | returns and stores the clamped radius |
| GravityPoints.GravityPoint.SetStrength | Data/Scripts/NaturalGravity/GravityPoint.cs:264-269 | returns the clamped strength and stores its generator gravity |
| GravityPoints.GravityPoint.SlowUpdate | Data/Scripts/NaturalGravity/GravityPoint.cs:157-168 | the member list becomes exactly the non-static entities within the radius, in input order; old contents are discarded |
| GravityPoints.GravityPoint.Update | Data/Scripts/NaturalGravity/GravityPoint.cs:170-240 | nothing happens before init or when the generator is closed, marked for close, off, or has gravity <= 0; otherwise the effect is the active-update specification |
| GravityPoints.GravityPoint.Remove | Data/Scripts/NaturalGravity/GravityPoint.cs:271-286 | the grid is closed; with sync it returns the `1;id` message, otherwise none |
| GravityPoints.Vacated | Data/Scripts/NaturalGravity/GravityPoint.cs:63-68 | after the drop, the requested id is absent and every other entry is kept unchanged |
| GravityPoints.Registry.Spawn | Data/Scripts/NaturalGravity/GravityPoint.cs:37-120 | without the prefab nothing changes; otherwise the engine is asked for exactly one grid with the given position, radius, strength and id, an existing entry under the id is closed (announced) and dropped, no other generator is closed, and on success the grid's id maps to a new field on the created grid's generator and, with sync, the create message is sent |
| MultiplayerSync.SyncCreated | Data/Scripts/NaturalGravity/MultiplayerSync.cs:154-163 | an old field under the id is closed silently and dropped, and no other generator is closed; a grid with the message's position, radius, strength and id is asked for; on success the id then maps to a new field on the created grid's generator; nothing is sent |
| MultiplayerSync.SyncRemoved | Data/Scripts/NaturalGravity/MultiplayerSync.cs:179-188 | closes exactly the generator of the field under the id; an unknown id changes nothing |
| MultiplayerSync.ReceivedSyncPacket | Data/Scripts/NaturalGravity/MultiplayerSync.cs:94-126 | the message is decoded as the corrected receiver does; a dropped one changes no entry, asks for no grid and closes nothing; a remove closes only the field under the id and keeps the registry; a create closes and replaces only the entry under its id, asking for a grid with the message's values; nothing is sent |
| AsteroidUtils.RoundHalfEven | Data/Scripts/NaturalGravity/Utils.cs:87 | Math.Round lands within one half of its argument, and an exact half goes to the even neighbour |
| AsteroidUtils.CalculateAsteroidRadius | Data/Scripts/NaturalGravity/Utils.cs:84-88 | the radius never exceeds radius_max, and is at least radius_min whenever radius_min <= radius_max |
| AsteroidUtils.FullSizeGetsRadiusMax | Data/Scripts/NaturalGravity/Utils.cs:84-88 | an asteroid exactly asteroid_maxsize across gets radius_max |
| AsteroidUtils.CalculateAsteroidStrength | Data/Scripts/NaturalGravity/Utils.cs:90-94 | the strength never exceeds strength_max, and is at least strength_min whenever strength_min <= strength_max; with a zero asteroid_maxsize and a positive strength_max it is strength_max (the infinite size clamped) |
| AsteroidUtils.FullSizeGetsStrengthMax | Data/Scripts/NaturalGravity/Utils.cs:90-94 | an asteroid exactly asteroid_maxsize across gets strength_max |
| AsteroidUtils.Scale | Data/Scripts/NaturalGravity/Utils.cs:107 | the voxels per cell along an axis are at least 1 at every level of detail |
| AsteroidUtils.LodSizeShrinks | Data/Scripts/NaturalGravity/Utils.cs:107-108 | the coarsened grid times the scale never exceeds the storage size |
| AsteroidUtils.CoarseningBounded | Data/Scripts/NaturalGravity/Utils.cs:109-115 | while the grid is over 1023 cells across, lod + diff stays within the storage size, which bounds the recursion |
| AsteroidUtils.ChooseLod | Data/Scripts/NaturalGravity/Utils.cs:105-115 | the recursion ends at a level no lower than the start, whose grid has AbsMax / 512 <= 1 |
| AsteroidUtils.AsteroidLod | Data/Scripts/NaturalGravity/Utils.cs:96-99 | the level used starts from 2 and never goes below it |
| AsteroidUtils.ScanVoxels | Data/Scripts/NaturalGravity/Utils.cs:121-141 | after the triple loop, every cell with content > 0 lies in [min, max), and each face of the box touches such a cell |
| AsteroidUtils.CenterInside | Data/Scripts/NaturalGravity/Utils.cs:143-145 | the scaled-back centre of the tight box lies inside the asteroid's box |
| AsteroidUtils.GetAsteroidDataAt | Data/Scripts/NaturalGravity/Utils.cs:105-148 | the centre is the midpoint of corner + min*scale and corner + max*scale for the tight box, inside the asteroid; radius and strength depend only on the size and the settings |
| AsteroidUtils.GetAsteroidData | Data/Scripts/NaturalGravity/Utils.cs:96-99 | the same, at the level of detail reached from 2 |
| AsteroidUtils.GetGravityInAsteroid | Data/Scripts/NaturalGravity/Utils.cs:30-44 | returns a registered field whose centre lies in the asteroid's closed box, and null iff none does |
| NaturalGravity.Advance | Data/Scripts/NaturalGravity/NaturalGravity.cs:719-727 | a scan only ever happens at the end of a ten-tick round |
| NaturalGravity.AfterClosedForm | Data/Scripts/NaturalGravity/NaturalGravity.cs:719-727 | after n calls, tick = (n-1) mod 10 and extraTick = ((n-1) div 10 + 1) mod 30 |
| NaturalGravity.Schedule | Data/Scripts/NaturalGravity/NaturalGravity.cs:719-727 | call n+1 ends a ten-tick round (the `refresh` flag) iff 10 divides n (so first call, then every tenth), scans on every thirtieth round, and leaves 0 <= tick < 10 and 0 <= extraTick < 30; whether a round rebuilds the lists is up to `Session.Scheduled` |
| NaturalGravity.FirstInBox | Data/Scripts/NaturalGravity/NaturalGravity.cs:112-126 | the first index in list order whose centre lies in the closed box, and none iff no centre does |
| NaturalGravity.FirstAtCenterSurvives | Data/Scripts/NaturalGravity/NaturalGravity.cs:797-810 | every centre has an occurrence that the duplicate sweep keeps |
| NaturalGravity.WithoutExactly | Data/Scripts/NaturalGravity/NaturalGravity.cs:674-677 | RemoveAll keeps exactly the fields on other generators, and keeps the list free of repeats |
| NaturalGravity.Announce | Data/Scripts/NaturalGravity/NaturalGravity.cs:504-523 | one create command per prefab, in order, carrying its position, radius and strength |
| NaturalGravity.WantedExactly | Data/Scripts/NaturalGravity/NaturalGravity.cs:769-784 | a field is wanted for an asteroid iff it is physical, its name has a prefix (ignoring case) and no field lies in its box |
| NaturalGravity.MatchesPrefix | Data/Scripts/NaturalGravity/NaturalGravity.cs:773-782 | the prefix loop reports a match iff some prefix starts the name, ignoring case |
| NaturalGravity.GetNearbyAsteroid | Data/Scripts/NaturalGravity/NaturalGravity.cs:128-148 | the first asteroid whose closed box holds the position, and none iff no box does |
| NaturalGravity.RemoveFirst | Data/Scripts/NaturalGravity/NaturalGravity.cs:704 | List.Remove drops exactly one occurrence when there is one and changes nothing otherwise |
| NaturalGravity.RemoveFirstDropsFirst | Data/Scripts/NaturalGravity/NaturalGravity.cs:704 | the occurrence List.Remove drops is the first one (`RemovedAt`: no earlier element is the id) and the other ids keep their order |
| NaturalGravity.Session.constructor | Data/Scripts/NaturalGravity/NaturalGravity.cs:54-57 | tick starts at 10 and extraTick at 0, not initialised, with no fields, prefabs or messages |
| NaturalGravity.Session.AddGravityPoint | Data/Scripts/NaturalGravity/NaturalGravity.cs:666-672 | a null field is refused and any other is appended; a field not yet listed keeps the list free of repeats |
| NaturalGravity.Session.RemoveGravityPoint | Data/Scripts/NaturalGravity/NaturalGravity.cs:674-677 | exactly the fields on the generator are removed, the others keep their order |
| NaturalGravity.Session.ClearEntities | Data/Scripts/NaturalGravity/NaturalGravity.cs:679-685 | every member list is emptied |
| NaturalGravity.Session.AddInRangeAll | Data/Scripts/NaturalGravity/NaturalGravity.cs:687-693 | every field appends the entity iff it is within that field's radius |
| NaturalGravity.Session.ChangeEntity | Data/Scripts/NaturalGravity/NaturalGravity.cs:695-707 | each field whose radius holds the entity appends it, or removes one occurrence; the others are unchanged |
| NaturalGravity.Session.EntityEvent | Data/Scripts/NaturalGravity/NaturalGravity.cs:440-459 | only a grid with dynamic, enabled, non-phantom physics changes any member list |
| NaturalGravity.Session.Refresh | Data/Scripts/NaturalGravity/NaturalGravity.cs:729-740 | after a rebuild each field's list is exactly the eligible entities within its radius; old contents are discarded |
| NaturalGravity.Session.PlayerView | Data/Scripts/NaturalGravity/NaturalGravity.cs:745-752 | the player's position is known iff not on a dedicated server, notify or jetpack is on, and a player is controlling something |
| NaturalGravity.Session.UpdateFields | Data/Scripts/NaturalGravity/NaturalGravity.cs:754-757 | each field, in order, has the effect of its own update, and keeps its new flag |
| NaturalGravity.Session.AddGravityPrefab | Data/Scripts/NaturalGravity/NaturalGravity.cs:461-536 | a prefab is created only when the definition is usable; with sync its create command is sent, otherwise nothing is sent |
| NaturalGravity.Session.GetGravityInAsteroid | Data/Scripts/NaturalGravity/NaturalGravity.cs:112-126 | returns the first field in list order whose centre lies in the asteroid's closed box, and null iff none does |
| NaturalGravity.Session.WantedPrefabs | Data/Scripts/NaturalGravity/NaturalGravity.cs:771-793 | one prefab per wanted asteroid, in order, at the centre of its content with its computed radius and strength |
| NaturalGravity.Session.SpawnAll | Data/Scripts/NaturalGravity/NaturalGravity.cs:784-793 | every prefab is created and announced, in order |
| NaturalGravity.Session.CheckAsteroids | Data/Scripts/NaturalGravity/NaturalGravity.cs:761-811 | a null prefix list does nothing; otherwise exactly the wanted asteroids get an announced prefab, and exactly the fields whose centre repeats an earlier one are closed |
| NaturalGravity.Session.SpawnWanted | Data/Scripts/NaturalGravity/NaturalGravity.cs:771-794 | the prefabs created and announced are exactly those for the wanted asteroids, in order |
| NaturalGravity.Session.RemoveDuplicates | Data/Scripts/NaturalGravity/NaturalGravity.cs:796-810 | exactly the generators of fields whose centre equals an earlier field's centre are closed |
| NaturalGravity.Session.SyncRemoved | Data/Scripts/NaturalGravity/NaturalGravity.cs:596-620 | closes at most one field: the first whose centre lies within ±1 of the position |
| NaturalGravity.Session.ReceivedSyncPacket | Data/Scripts/NaturalGravity/NaturalGravity.cs:538-570 | a create spawns without announcing, a remove closes the first field near the position, a dropped message changes nothing |
| NaturalGravity.Session.UpdateBeforeSimulation | Data/Scripts/NaturalGravity/NaturalGravity.cs:709-759 | before the session exists nothing changes; afterwards the counters advance per the schedule; a scan spawns and announces exactly the wanted asteroids' prefabs and closes exactly the repeated centres, and nothing else spawns, sends or closes; a rebuild with affect_ships and some field leaves every list exactly the eligible entities in radius, and nothing else changes a list; every field then has the effect of its own update and keeps its new flag |
| NaturalGravity.Session.Tick | Data/Scripts/NaturalGravity/NaturalGravity.cs:719-727 | the counters move to the next state of the schedule |
| NaturalGravity.Session.Scheduled | Data/Scripts/NaturalGravity/NaturalGravity.cs:723-740 | on a scan step, the scan's effect; on a rebuild step with affect_ships and some field, the rebuilt lists; otherwise nothing spawns, sends, closes or changes a list, and no flag changes |
| NaturalGravity.Session.RunStep | Data/Scripts/NaturalGravity/NaturalGravity.cs:723-758 | the scheduled work, then every field's own update in list order |
| Settings.Defaults | Data/Scripts/NaturalGravity/Settings.cs:54-65 | the defaults have the prefix list ["gravity_"] and bounds within their ranges |
| Settings.DefaultPrefixList | Data/Scripts/NaturalGravity/Settings.cs:77 | splitting "gravity_" at commas and trimming gives ["gravity_"] |
| Settings.TrimAll | Data/Scripts/NaturalGravity/Settings.cs:516-519 | every piece is trimmed, in place, and none is added or lost |
| Settings.ParseKey | Data/Scripts/NaturalGravity/Settings.cs:99-137 | a name selects the key with exactly that name (case included), and every other name selects none |
| Settings.SetValue | Data/Scripts/NaturalGravity/Settings.cs:528-541 | succeeds iff the value is non-empty and parses; then the parsed value is stored, otherwise the old one is kept |
| Settings.SetValueRejectsText | Data/Scripts/NaturalGravity/Settings.cs:528-541 | an integer setting given any text without a digit fails and keeps its value |
| Settings.PrefixValue | Data/Scripts/NaturalGravity/Settings.cs:505-526 | "null" disables the list and any other text gives a list of at least one prefix |
| Settings.Assign | Data/Scripts/NaturalGravity/Settings.cs:99-137 | only the selected setting can change; a failure changes nothing; the prefix setter always succeeds; a set bound lies in its range |
| Settings.ApplySetting | Data/Scripts/NaturalGravity/Settings.cs:85-145 | a line not splitting into two parts, or naming no setting, fails and changes nothing; success changes only the named setting and keeps the bounds valid |
| Settings.ApplyAllKeepsBounds | Data/Scripts/NaturalGravity/Settings.cs:344-348 | parsing any lines in order keeps the radius and strength bounds in range |
| Settings.ApplyKeyLine | Data/Scripts/NaturalGravity/Settings.cs:87-96 | `name=value` with no '=' in the value selects that setting and offers it the trimmed value |
| Settings.PrefixTextAsWritten | Data/Scripts/NaturalGravity/Settings.cs:216 | String.Join fails exactly when the prefix list is null |
| Settings.SettingsTextAsWritten | Data/Scripts/NaturalGravity/Settings.cs:147-252 | the settings text exists iff the prefix list is not null |
| Settings.Block | Data/Scripts/NaturalGravity/Settings.cs:151-159 | each key writes its comments (when asked) and then its one data line |
| Settings.NullPrefixNotPrintable | Data/Scripts/NaturalGravity/Settings.cs:505-511 | "asteroid_prefix=null" is accepted, and the settings text then cannot be produced |
| Settings.PrefixListRoundTrip | Data/Scripts/NaturalGravity/Settings.cs:514-521 | splitting the ", "-joined trimmed comma-free prefixes at commas and trimming gives them back |
| Settings.PrefixRoundTrip | Data/Scripts/NaturalGravity/Settings.cs:505-526 | the printed prefix list (or "null") is a clean value that the prefix setter reads back as the same list |
| Settings.DataLineRoundTrip | Data/Scripts/NaturalGravity/Settings.cs:159-249 | parsing a key's `key=value` line into any settings copies exactly that key's value |
| Settings.LinesForData | Data/Scripts/NaturalGravity/Settings.cs:147-249 | without comments the text is just the data lines, in key order |
| Settings.ApplyDataLines | Data/Scripts/NaturalGravity/Settings.cs:344-348 | parsing the data lines in order copies those keys' values |
| Settings.TrimLastBreak | Data/Scripts/NaturalGravity/Settings.cs:251 | the final trim removes exactly the last line break |
| Settings.AppendLinesJoin | Data/Scripts/NaturalGravity/Settings.cs:147-249 | the appended text is the lines, each ending in a carriage return, joined by line feeds, plus a final line break |
| Settings.SplitTrimLines | Data/Scripts/NaturalGravity/Settings.cs:339-347 | splitting that text at line feeds and trimming each piece gives the lines back |
| Settings.WireRoundTrip | Data/Scripts/NaturalGravity/Settings.cs:336-348 | parsing each trimmed line of GetSettingsString(false) turns any settings into the printed ones |
| Settings.ConfigLine | Data/Scripts/NaturalGravity/Settings.cs:447-460 | an empty or "//" line yields nothing; any other yields a prefix of the line with no "//" in it |
| Settings.TrailingCommentCutAsWritten | Data/Scripts/NaturalGravity/Settings.cs:454-457 | as written, "jetpack=5 //x" is cut to "jet", which sets nothing |
| Settings.TrailingCommentCut | Data/Scripts/NaturalGravity/Settings.cs:454-459 | cut at the comment, "jetpack=5 //x" sets jetpack to 5 |
| Settings.CommentsWellFormed | Data/Scripts/NaturalGravity/Settings.cs:151-246 | every comment line written is empty or starts with "//" |
| Settings.CommentSkipped | Data/Scripts/NaturalGravity/Settings.cs:449-452 | LoadConfig skips every comment line |
| Settings.DataLineKept | Data/Scripts/NaturalGravity/Settings.cs:449-459 | LoadConfig hands each data line to the parser unchanged |
| Settings.FileConfigLines | Data/Scripts/NaturalGravity/Settings.cs:447-461 | of the commented text, LoadConfig parses exactly the data lines, in order |
| Settings.FirstLineIsComment | Data/Scripts/NaturalGravity/Settings.cs:153 | the commented text starts with a comment line |
| Settings.FileRoundTrip | Data/Scripts/NaturalGravity/Settings.cs:429-461 | reading back GetSettingsString(true) line by line as LoadConfig does turns any settings into the saved ones |
| Settings.FileRoundTripAsWritten | Data/Scripts/NaturalGravity/Settings.cs:447-461 | the same holds with the comment cut as written, because no line of the saved text has a trailing comment |
| Settings.FilterAgrees | Data/Scripts/NaturalGravity/Settings.cs:449-459 | on a comment line or a line without '/', the filter as written and the corrected one give the same result |
| Settings.ReadLines | Data/Scripts/NaturalGravity/Settings.cs:447 | no line read holds a line feed or a carriage return |
| Settings.ReadJoinedLines | Data/Scripts/NaturalGravity/Settings.cs:447 | reading lines that each end in a carriage return, joined by line feeds, gives the lines back |
| Settings.SavedLines | Data/Scripts/NaturalGravity/Settings.cs:147-252 | ReadLine splits the commented text into exactly the lines it was built from |
| Settings.SettingsTextAscii | Data/Scripts/NaturalGravity/Settings.cs:306-317 | the plain settings text is all ASCII when the printed reals and the prefixes are |
| Settings.DecodeAction | Data/Scripts/NaturalGravity/Settings.cs:372-396 | an action is selected iff the payload is non-empty and its first byte is 0, 1 or 2, and it is the action that byte names |
| Settings.ActionRoundTrip | Data/Scripts/NaturalGravity/Settings.cs:425 | the byte a client's request carries selects that same action, whatever follows it |
| SettingsState.Broadcast | Data/Scripts/NaturalGravity/Settings.cs:306-317 | the server sends the ASCII bytes of the plain settings text; a client changes nothing |
| SettingsState.Requested | Data/Scripts/NaturalGravity/Settings.cs:372-396 | an empty payload or an unknown action byte changes nothing |
| SettingsState.ClientOnlyAsks | Data/Scripts/NaturalGravity/Settings.cs:398-503 | on a client, save, load and reset only send the request byte |
| SettingsState.RequestReachesServer | Data/Scripts/NaturalGravity/Settings.cs:372-396 | the server carries out exactly the action the client's byte names |
| SettingsState.ResetRestoresDefaults | Data/Scripts/NaturalGravity/Settings.cs:485-496 | a server reset restores every default and sends the defaults |
| SettingsState.LoadWithoutFile | Data/Scripts/NaturalGravity/Settings.cs:438-441 | without a config file the server's load changes nothing and sends nothing |
| SettingsState.ReceivedKeepsBounds | Data/Scripts/NaturalGravity/Settings.cs:336-354 | received settings keep the bounds in range |
| SettingsState.LoadedKeepsBounds | Data/Scripts/NaturalGravity/Settings.cs:429-483 | loaded settings keep the bounds in range |
| SettingsState.ClientAdoptsServerSettings | Data/Scripts/NaturalGravity/Settings.cs:306-354 | a client receiving the ASCII bytes of the server's text ends with exactly the server's settings and sends nothing |
| SettingsState.SaveThenLoad | Data/Scripts/NaturalGravity/Settings.cs:398-483 | loading what saving wrote restores the saved settings and sends them to the clients |
| SettingsState.SettingsStore.constructor | Data/Scripts/NaturalGravity/Settings.cs:254-256 | the store starts with every default and the given config file, and has sent nothing |
| SettingsState.SettingsStore.ResetSettings | Data/Scripts/NaturalGravity/Settings.cs:67-83 | every setting takes its default |
| SettingsState.SettingsStore.ParseSetting | Data/Scripts/NaturalGravity/Settings.cs:85-145 | the fields and the result are those of the ParseSetting specification |
| SettingsState.SettingsStore.SetKey | Data/Scripts/NaturalGravity/Settings.cs:99-137 | the switch case writes exactly what the setter specification gives |
| SettingsState.SettingsStore.SendSettingsToClients | Data/Scripts/NaturalGravity/Settings.cs:306-317 | the new state is the broadcast of the old one |
| SettingsState.SettingsStore.ReceivedSettings | Data/Scripts/NaturalGravity/Settings.cs:336-354 | the bytes are read as ASCII; the line loop leaves the state that parsing every trimmed line in order gives, and a server then passes the result on to the clients |
| SettingsState.SettingsStore.SaveConfig | Data/Scripts/NaturalGravity/Settings.cs:398-427 | the server writes the commented text; a client sends a save request |
| SettingsState.SettingsStore.LoadConfig | Data/Scripts/NaturalGravity/Settings.cs:429-483 | the line loop leaves the state that parsing the filtered file lines in order gives |
| SettingsState.SettingsStore.ResetConfig | Data/Scripts/NaturalGravity/Settings.cs:485-503 | the server resets and broadcasts; a client sends a reset request |
| SettingsState.SettingsStore.ReceivedConfigRequest | Data/Scripts/NaturalGravity/Settings.cs:372-396 | the state after the dispatch is the requested action's |

## Left out

- Chat commands are not modelled: `MessageEntered`, `IsAdmin` and the help text in NaturalGravity.cs, and all of Commands.cs. They are user interface over the operations modelled here.
- `BeforeDamage`, `Init` and `UnloadData` in NaturalGravity.cs are not modelled. They are engine event registration and damage suppression. The init flag itself is modelled in `UpdateBeforeSimulation`.
- Logging (`Log.*`, MyLogger.cs) is left out. It is file output only.
- NaturalGravityGenerator.cs and NaturalGravityReactor.cs are left out. They are component lifecycle and a reactor fuel top-up; their registry effect goes through `AddGravityPoint`/`RemoveGravityPoint`.
- The engine is outside the model. Prefab lookup and entity creation become the flag `prefabOk` and the `created` grid. Entity and voxel-map enumeration become sequences passed in. The player becomes an `Option<Player>`.
- The force vector, `Vector3D.Normalize`, `AddForce` and the `LinearVelocity` change are not computed. An update records each push as entity and effective mass, and the boost as a speed change.
- Floating point: doubles and floats are exact reals, so the `(float)` narrowing, the float `generator.Radius`, NaN and infinity are not modelled.
- Float text (ToString/TryParse, culture) is abstract. Round trips ask that each real prints and parses back exactly.
- The 32-bit wrap-around of `min *= scale` when no voxel has content is not modelled. `GetAsteroidData` instead requires some cell with content, and a grid within the Int32 range.
- `GetAimedAsteroid` in Utils.cs is left out: it is a ray cast against the engine's bounding boxes.
- `RequestSettings`, `ReceivedSettingsRequest`, `SendSettings(sendTo)`, `SyncSettings`, `Settings.Init` and `Settings.Close` are left out. They address packets to a peer and register handlers; the text they send is the `SettingsText` modelled here.
- `StartsWithIgnoreCase` folds only the letters A–Z.
- `Trim` removes the six ASCII white-space characters, not the whole Unicode white-space class.
- The `verbose` argument of `ParseSetting`/`SetValue` only selects where a message is shown, so it is dropped.
- AsteroidUtils.GetGravityInAsteroid: returns some field in the box rather than the first, because the enumeration order of a `Dictionary` is not specified.
- AsteroidUtils.CalculateAsteroidStrength: requires `StrengthDefined`, that the strength is a number. The source gets NaN for an empty storage over a zero `asteroid_maxsize` (0/0) and for a zero `asteroid_maxsize` with `strength_max` 0 (infinity times 0); a real-number model cannot represent NaN. Every other zero-maximum case is modelled. The requirement also applies to `AsteroidUtils.GetAsteroidDataAt`, `AsteroidUtils.GetAsteroidData`, `NaturalGravity.Measurable`, `NaturalGravity.Session.WantedPrefabs`, `NaturalGravity.Session.CheckAsteroids`, `NaturalGravity.Session.SpawnWanted`, `NaturalGravity.Session.Scheduled`, `NaturalGravity.Session.RunStep` and `NaturalGravity.Session.UpdateBeforeSimulation`, which treat such an asteroid as not measurable. `CalculateAsteroidRadius` models the zero maximum too: its cast yields int.MinValue, which the clamp raises to radius_min (or lowers to radius_max when that is smaller).
- NaturalGravity.Session.Refresh: requires each field to be listed once. This also applies to `AddInRangeAll`, `ChangeEntity`, `EntityEvent`, `UpdateFields` and `UpdateBeforeSimulation`. A field listed twice would be processed twice, which the component lifecycle never causes.
- Settings.WireRoundTrip: holds for settings whose values print and read back exactly (`Serializable`). This also applies to `FileRoundTrip` and `SaveThenLoad`. A prefix holding ',', '=' or a line feed does not survive the text form. `FileRoundTrip` also needs no '/', carriage return or line feed in a prefix (`FileSafe`), because of the comment filter and ReadLine.
- Settings.ConfigLine: cuts a trailing comment at the comment, the corrected filter of the third Findings row; `ConfigLineAsWritten` is the source's `Substring(0, Length - commentIndex)`. `FilterAgrees` shows the two agree on every comment line and every line without '/', and `FileRoundTripAsWritten` shows they agree on the whole text the mod saves. They differ only on a hand-edited line with a trailing comment.
- SettingsState.SettingsStore.LoadConfig: parses the lines the corrected `ConfigLine` keeps, so a hand-edited line with a trailing comment is parsed as cut at the comment, not as the source cuts it. This also applies to `SettingsState.Loaded`, `SettingsState.LoadedKeepsBounds` and `SettingsState.SaveThenLoad`.
- Settings.SettingsText: prints a disabled prefix list as `null`, the corrected printer of the fourth Findings row; `SettingsTextAsWritten` is the source's, which has no text (String.Join throws) for a disabled list.
- SettingsState.Broadcast: sends the corrected `SettingsText`, so with a disabled prefix list it sends `asteroid_prefix=null` where the source throws. This also applies to `SettingsState.SettingsStore.SendSettingsToClients`, `SettingsState.ResetRestoresDefaults` and `SettingsState.SettingsStore.ResetConfig`.
- SettingsState.SettingsStore.ReceivedSettings: a server passes the result on through the corrected `SettingsText`, as `Broadcast` does.
- SettingsState.SettingsStore.SaveConfig: writes the corrected `SettingsText`, so with a disabled prefix list it writes `asteroid_prefix=null` where the source throws. This also applies to `SettingsState.Saved` and `SettingsState.SaveThenLoad`.
- SettingsState.ClientAdoptsServerSettings: needs, besides `Serializable`, that the printed reals and the prefixes are ASCII (`AsciiSafe`); any other character turns into '?' in `Encoding.ASCII`.
- MultiplayerSync.ReceivedSyncPacket: the sync messages of both designs are decoded from text; the `Encoding.ASCII` byte step is left out. `LegacySync.EncodeAscii`, `SyncMessages.CreateGravityTextAscii` and `SyncMessages.RemoveGravityTextAscii` show that the messages the mod sends pass that step unchanged when the printed reals are ASCII. This also applies to `NaturalGravity.Session.ReceivedSyncPacket`. Both decode with the corrected receiver, `SyncMessages.Received`.

## Findings

| source | as written | input that shows it | evidently intended | confidence | as-written member | corrected member |
|---|---|---|---|---|---|---|
| Data/Scripts/NaturalGravity/MultiplayerSync.cs:130 | SyncCreated demands 6 fields and reads args[1..6]. CreateGravity writes 7 fields, and with 6 fields the read of args[6] throws. | the message CreateGravity sends, e.g. `0;5;1;2;3;100;0.5` (7 fields) | accept the 7 fields CreateGravity writes | not executed | SyncMessages.AsWrittenDropsCreate | SyncMessages.CreateRoundTrip |
| Data/Scripts/NaturalGravity/MultiplayerSync.cs:168 | SyncRemoved demands 4 fields, but RemoveGravity writes `1;id` (2 fields) | `1;5` | accept the 2 fields RemoveGravity writes | not executed | SyncMessages.AsWrittenDropsRemove | SyncMessages.RemoveRoundTrip |
| Data/Scripts/NaturalGravity/Settings.cs:457 | the trailing comment is cut with `Substring(0, Length - commentIndex)` | the config line `jetpack=5 //x` becomes `jet` | `Substring(0, commentIndex)`, giving `jetpack=5 ` | not executed | Settings.TrailingCommentCutAsWritten | Settings.TrailingCommentCut |
| Data/Scripts/NaturalGravity/Settings.cs:216 | `String.Join` on the null list that `asteroid_prefix=null` stores throws | `/ng set asteroid_prefix null`, then any save or send of the settings | print the disabled list as `null`, which the parser reads back as disabled | not executed | Settings.NullPrefixNotPrintable | Settings.PrefixRoundTrip |
