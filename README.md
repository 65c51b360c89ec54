# Wand gesture classifier, modelled in Dafny

The wand is a handheld MicroPython device with a 6-axis motion sensor, one
button and a peer-to-peer radio. Each time round its main loop it drains the
radio's inbound queue into a "last message" slot, then waits for a press of
the button. While the button is held it polls the sensor every 10 ms and
appends one lateral and one vertical angular-rate sample to two windows.
When the button is released it classifies the windows as one of five spells
(`up`, `down`, `left`, `right`, `other`). Every spell except `other` is
broadcast as the byte `!` followed by the label.

The project has three modules:

- `Spells` (`spells.dfy`): the five labels and the wire payload
  with the broadcast address.
- `Classifier` (`classifier.dfy`): `determine_spell` as a pure function, and
  lemmas that characterise its result without looking at its body.
- `WandDevice` (`wand.dfy`): sensor readings and inbound messages as
  datatypes, and the class `Wand`. Its field `msg` is the last-message slot.
  Its methods are the drain loop (`MyCallback`), the capture episode with its
  send decision (`Puzzle`) and one iteration of the main loop (`Tick`).

How the classifier decides. For each direction it forms a pair: the "strong
count" (samples at or above 32764, or at or below -32764) and the "peak"
(the magnitude of the window's maximum or minimum, 0 for an empty window).
The source keeps these pairs in a dict literal read by a keyed `max`.
Python's `max` scans left to right and replaces its candidate only on a
strictly greater key, so it returns the first maximum in the dict's
iteration order (`FirstMax`), and that order decides every tie.

Which order that is depends on the interpreter:

- A dict that keeps insertion order visits the literal's keys as written:
  Up, Down, Left, Right (`InsertionOrder`). CPython 3.7 and later does this.
- The device runs MicroPython. Its plain dict is an open-addressing hash
  table, iterated slot by slot. A 4-entry literal gets 4 slots. The labels'
  string hashes (djb2 with xor) modulo 4 are up 0, right 1, left 2,
  down 3, so the keys do not collide. The device therefore visits Up, Right,
  Left, Down (`DeviceOrder`). This order is derived from MicroPython's map
  layout; nothing was executed.

The model defines the classifier for any visiting order (`DetermineSpellIn`)
and proves its rules for all of them. `DetermineSpell` is the device's
instance. Where the count winner or the peak winner is unique, every order
gives the same spell (`StrictCountWinner`, `StrictPeakWinner`). Where two
directions tie, the orders can disagree. Down and Right tie at one saturated
sample each for `lr = [-40000], ud = [-40000]`: the device returns Right,
while insertion order would give Down (`TieBreakFollowsVisitOrder`).

Notes on the source as modelled:

- `read_movement_data` returns `(gy, gx)`, and the capture loop unpacks that
  pair into names `gz, gx`. So the lateral window receives the **y** angular
  rate, and the model says exactly that. The name `gz` is a misnomer only;
  the values are unchanged.
- The peak of Up is `abs(max(ud))` even when that maximum is negative. A
  vertical window holding only `-11` therefore ties Up and Down at 11, and
  the tie goes to Up, which both orders visit first
  (`NegativeVerticalWindowGivesUp`). This is modelled as
  written.
- The payload is built as `b'!' + movement`, where `movement` is a `str`.
  MicroPython accepts this because its `str` has the buffer protocol; CPython
  would raise `TypeError`. The model follows the device: the payload is 0x21
  followed by the label's ASCII bytes.
- `msg` starts as the empty `str` in the source, and payloads are bytes. The
  model uses byte strings throughout and starts `msg` as the empty byte
  string.

## Model

| member | source | states |
|---|---|---|
| `Spells.Label` | wand/wand.py:12-16 | each of the five spells has a non-empty ASCII label, the source's string constant |
| `Spells.Payload` | wand/wand.py:110 | the outbound payload is the marker byte 0x21 followed by the label's characters, one byte each, and is one byte longer than the label |
| `Spells.PayloadInjective` | wand/wand.py:12-16 | distinct spells are sent as distinct payloads |
| `Spells.LeftPayloadBytes` | wand/wand.py:110 | a Left cast is sent as the bytes 0x21 'l' 'e' 'f' 't' |
| `Classifier.Position` | wand/wand.py:80-81 | a direction's position in a visiting order is an index holding it, before which it does not occur |
| `Classifier.DeviceOrderIsVisitOrder` | wand/wand.py:73-78 | both the device's order and the insertion order visit each of the four directions exactly once |
| `Classifier.CountAtLeast` | wand/wand.py:74 | the generator sum equals the number of positions holding a sample at or above the bound; it is at most the window length, and positive exactly when some sample reaches the bound |
| `Classifier.CountAtMost` | wand/wand.py:75 | the generator sum equals the number of positions holding a sample at or below the bound; it is at most the window length, and positive exactly when some sample reaches the bound |
| `Classifier.MaxOr0` | wand/wand.py:74 | `max(s, default=0)`: 0 for an empty window, otherwise an element of the window that no element exceeds |
| `Classifier.MinOr0` | wand/wand.py:75 | `min(s, default=0)`: 0 for an empty window, otherwise an element of the window that no element undercuts |
| `Classifier.StrongCount` | wand/wand.py:74-77 | Up and Down count the vertical positions at or above 32764 and at or below -32764; Left and Right count the same on the lateral window |
| `Classifier.Peak` | wand/wand.py:74-77 | Up and Left are the magnitude of a sample no sample of their window exceeds, Down and Right of one no sample undercuts; 0 for an empty window |
| `Classifier.FirstMax` | wand/wand.py:80-81 | the keyed `max` over the candidates returns a position whose key no other key exceeds and that every earlier key is strictly below |
| `Classifier.DetermineSpellIn` | wand/wand.py:55-84 | in any visiting order, the spell is Other exactly when every count is 0 and no peak exceeds 10; a direction returned has a positive count or a peak above 10. CountRule and PeakRule pin the direction |
| `Classifier.DetermineSpell` | wand/wand.py:55-84 | the classifier in the device's order, with the same contract; CountRule and PeakRule, instantiated with DeviceOrder, pin the direction |
| `Classifier.TableMaxima` | wand/wand.py:80-81 | the first maxima of the table bound every direction's count and every direction's peak |
| `Classifier.CountWinnerAt` | wand/wand.py:80 | a direction has the greatest strong count with every direction visited earlier strictly lower exactly when its position is a first maximum of the counts |
| `Classifier.PeakWinnerAt` | wand/wand.py:81 | a direction has the greatest peak with every direction visited earlier strictly lower exactly when its position is a first maximum of the peaks |
| `Classifier.PositionOf` | wand/wand.py:73-78 | in a visiting order each entry is a direction found at its own index |
| `Classifier.FirstMaxUnique` | wand/wand.py:80-81 | a key sequence has at most one first maximum, so the tie-break is deterministic |
| `Classifier.CountRule` | wand/wand.py:73-84 | when some strong count is positive, the spell is d exactly when d has the greatest count and every direction visited earlier has a smaller one |
| `Classifier.PeakRule` | wand/wand.py:81-84 | when every strong count is 0, the spell is d exactly when d has the greatest peak with every direction visited earlier smaller and that peak exceeds 10; it is Other exactly when no peak exceeds 10 |
| `Classifier.StrictCountWinner` | wand/wand.py:80-84 | a direction whose positive count beats every other count is the spell in every visiting order |
| `Classifier.StrictPeakWinner` | wand/wand.py:81-84 | with all counts 0, a direction whose peak exceeds 10 and beats every other peak is the spell in every visiting order |
| `Classifier.StrongSampleNeverOther` | wand/wand.py:71-84 | one sample at or beyond ±32764 on either axis forces a direction, never Other |
| `Classifier.QuietWindowIsOther` | wand/wand.py:74-84 | a window whose samples all lie within [-10, 10], such as an all-zero window, classifies as Other |
| `Classifier.EmptyWindowIsOther` | wand/wand.py:74-77 | two empty windows give all counts and peaks 0 and classify as Other |
| `Classifier.StrongCountBounded` | wand/wand.py:74-77 | each direction's strong count is at most the length of the window on its axis |
| `Classifier.TieBreakFollowsVisitOrder` | wand/wand.py:73-81 | lateral [-40000] with vertical [-40000] ties Down and Right; the device returns Right, insertion order returns Down |
| `Classifier.NegativeVerticalWindowGivesUp` | wand/wand.py:74-75 | the vertical window [-11] gives Up, because Up's peak is the magnitude of a negative maximum and the tie with Down goes to Up |
| `Classifier.SaturatedUpExample` | wand/wand.py:74 | vertical [40000, 40000, 100] with lateral [0, 0, 0] gives Up on a strong count of 2 |
| `Classifier.WeakUpExample` | wand/wand.py:81-84 | vertical [15, -8] with lateral [12, 3] has no strong sample and gives Up on a peak of 15 |
| `Classifier.SmallMotionExample` | wand/wand.py:84 | vertical [5, -3] with lateral [2, 1] gives Other |
| `Classifier.PeakBoundaryExamples` | wand/wand.py:84 | a greatest peak of exactly 10 gives Other, and lateral [11, -3], whose peak 11 belongs to Left alone, gives Left |
| `WandDevice.LastPayload` | wand/wand.py:41-42 | overwriting the slot with each drained payload in turn leaves the last payload, or the old value if nothing was drained |
| `WandDevice.LastPayloadConcat` | wand/wand.py:41-42 | draining a queue in two parts leaves the slot as one drain of the whole queue would |
| `WandDevice.LateralSamples` | wand/wand.py:44-53 | the lateral window has one sample per held poll, the first component `read_movement_data` returns, which is the reading's y angular rate |
| `WandDevice.VerticalSamples` | wand/wand.py:100-102 | the vertical window has one sample per held poll, the reading's x angular rate |
| `WandDevice.Wand.constructor` | wand/wand.py:26 | a new wand's last-message slot is empty |
| `WandDevice.Wand.MyCallback` | wand/wand.py:37-42 | the loop leaves `msg` equal to the last drained payload, unchanged when the queue is empty |
| `WandDevice.Wand.Puzzle` | wand/wand.py:95-111 | with no press edge nothing is collected or sent. Otherwise both windows grow in lockstep, one sample per held poll, from the readings. A send happens exactly when the spell is not Other, at most once, to FF:FF:FF:FF:FF:FF with the spell's payload. A zero-poll episode never sends |
| `WandDevice.Wand.Tick` | wand/wand.py:119-123 | one main-loop iteration drains the queue into `msg`, then runs one episode, and sends exactly as that episode decides |

Body-only helpers, without a row: `Classifier.Counts` and `Classifier.Peaks`
lay the four pairs out in visiting order. `WandDevice.ReadMovementData`
returns the pair `(gy, gx)` of a reading, as `read_movement_data` does.

## Left out

- Hardware construction is not modelled: the I2C bus, the LSM6DS3 driver, the button and the networking stack (wand/wand.py:28-35). These are foreign drivers. Readings, the press edge, the held polls and the inbound queue are inputs; the send is a returned value.
- The unused `tag_state` field (wand/wand.py:25) is not modelled.
- `asyncio.sleep_ms` (the 10 ms polling cadence and the post-send cooldown) and `asyncio.gather` are not modelled. They only schedule work, so each sleep is a no-op step.
- The endless `run` loop and the module-level startup are not modelled. `Tick` models one iteration.
- The `print` diagnostics are not modelled, since they are output only.
- Readings are modelled as unbounded integers. The driver's value type and any scaling are outside this model.
- Radio semantics are not modelled: delivery, loss and the remote peer. The transport is the returned send and the input message sequence.
- `DetermineSpell`: the device's visiting order (`DeviceOrder`) is derived from MicroPython's map layout (a 4-slot open-addressing table, qstr hashes), not observed. Only ties among Down, Left and Right depend on it. `DetermineSpellIn` with `InsertionOrder` gives the result an insertion-ordered dict would give.
