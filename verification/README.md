# ak_v3_driver in Dafny

A verification project for the AK-V3 motor driver: what its node publishes and sends over every
interleaving of its two threads, and what its frames mean on the wire.

## What is modelled

The driver has two parts that meet at a decoded CAN frame.

**The node.** `Steps` is the node as a step system. The RX thread receives a raw frame, decodes it, takes
`rx_queue_mutex_`, and pushes and releases. The executor takes the mutex, swaps the status queue, swaps the
extended-position queue and releases, absorbs extended positions one by one, then publishes a state and a
diagnostic for each status. Command and service callbacks are single steps that run only when no drain is in
progress, since the node is spun by one thread; RX steps fall anywhere. `Atomic` is the same node with every
delivery, drain and callback in one step. `Reduction` proves that each run of `Steps` settles to a run of
`Atomic`; `Serial`, with the `Schedules` it needs, proves that each interleaving is equivalent to a serial run,
in which a thread moves only while the other is at rest. The results about whole runs follow: `History`
(conservation, pairing, the cache), `PositionSource` (which position each published state carries, from the
events of the run alone), `Progress` (the hand-off never gets stuck), `Fallback` (what disabling the extended
frame achieves), `Direction` (inverted and plain nodes), `Transmit` (one attempt per request) and `Bus` (several
nodes on one bus). `Node` is the object itself: a class whose fields the RX loop, the drain and the callbacks
update, each method proved against `Atomic`.

**The codec.** `Wire`, `Protocol`, `Mit` and `Quantizer` are the big-endian appenders and readers, the packers,
the MIT packing and the clamp-and-quantise pair, with inverse readers written as specifications
(`ReadCommand`, `UnpackCodes`). `CanSocket` is the framing of `send` and `receive`, `Units` the motor table and
the unit conversions, `Messages` the messages and the frame each callback builds. `Delivery` follows a command
from ROS to the SI values a motor reads off the bus, and a motor's frame from the bus to what is published, with every
scale, range, mode and sign written out as numbers. `Rounding` bounds the effect of rounding on a quantised code.

## Conventions

- Floating-point values are exact reals, without NaN and infinity. A cast to an integer type drops the fraction
  (`Numeric.Trunc`); since the cast is undefined when the value does not fit, a packer requires that it fits.
  `Messages.DocumentedCommandsFit` discharges that for the documented domains of every motor in the table.
- Machine integers are subset types of `int`. A right shift is a floor division, a mask a remainder, a left shift
  `Shl`, and `|` the bitwise recursion `BitOr`.
- The outcomes of `poll`, `read` and `write`, and the frames that arrive, are parameters or free choices of a run.
- Every node reads the whole bus trace, its own frames included. Since no decoder accepts a command frame,
  whether a socket loops back its own frames makes no difference to what is proved.

## Where code and documentation differ

- The extended position has resolution 0.01 degrees in the code (src/protocol.cpp:319); the comment at
  include/ak_v3_driver/protocol.hpp:81 and the table in the repository's README say 0.0001. The model follows the code.
- `floatToUint` scales by 2^bits (src/protocol.cpp:86), so at or above the upper bound of a range the code is
  2^bits, which a field of that many bits cannot hold. In exact arithmetic the field then reads back as the lower
  bound, and a saturated kd or torque also sets the lowest bit of the kp or velocity field beside it
  (`Mit.UnpackExact`). The MIT round trip therefore holds exactly for setpoints strictly below every upper bound
  (`Mit.MitRoundTrip`). The values at test/test_protocol.cpp:151-152 and 179 depend on single-precision rounding,
  which moves a code by at most one, never above 2^bits (`Rounding.RoundedCodeIsClose`).
- A disabling `set_feedback_config` call clears the cache but not the queue, so an extended position already
  queued or in RX's hand comes back at the next drain (`Fallback.FallbackExact` gives the exact condition).

## Model

| member | source | states |
|---|---|---|
| Numeric.TruncExact | src/protocol.cpp:139 | a cast value is the one integer on the zero side of the input less than one away from it |
| Numeric.TruncToward | src/protocol.cpp:139 | a cast value has no opposite sign, no greater magnitude and is less than one unit away |
| Numeric.TruncOdd | src/protocol.cpp:139 | truncation commutes with negation |
| Numeric.FitsExact | src/protocol.cpp:139 | the casts are defined exactly for values between -2147483649 and 2147483648, or -32769 and 32768 |
| Wire.BuildCanId | src/protocol.cpp:74-76 | the or of shifted mode and can_id splits back into both bytes |
| Wire.CanIdInjective | src/protocol.cpp:70-76 | two identifiers agree only for the same mode and motor, and fit 29 bits |
| Wire.AppendInt32 | src/protocol.cpp:20-25 | writes the four big-endian bytes at the cursor, nothing else, and advances it by four |
| Wire.AppendInt16 | src/protocol.cpp:29-32 | writes two big-endian bytes at the cursor, nothing else, and advances it by two |
| Wire.AppendUint16 | src/protocol.cpp:36-39 | the same for an unsigned value |
| Wire.Int32RoundTrip | src/protocol.cpp:20-54 | reading gives v if and only if the four bytes are those v is written as, negatives included |
| Wire.Int16RoundTrip | src/protocol.cpp:29-46 | reading gives v if and only if the two bytes are those v is written as |
| Wire.Int32BigEndian | src/protocol.cpp:20-25 | four bytes are those of a value iff they are its two's complement, most significant byte first |
| Wire.Int16BigEndian | src/protocol.cpp:29-39 | two bytes likewise, for signed and unsigned values |
| CanSocket.CopyBytes | src/can_socket.cpp:72 | copies exactly the first dlc bytes and leaves the rest of the destination |
| CanSocket.Send | src/can_socket.cpp:65-79 | the struct written holds the low 31 id bits with bit 31 set, dlc, and the first dlc bytes over zeros; success is a write of all 16 bytes |
| CanSocket.Receive | src/can_socket.cpp:87-126 | success exactly for 16 bytes whose id word is at least 0x80000000 and below 0xA0000000; then id, dlc and the first dlc bytes are the frame's, the other bytes the caller's; otherwise nothing changes |
| CanSocket.FromRawExact | src/can_socket.cpp:104-125 | the same as a function of the raw frame and the caller's frame |
| CanSocket.FramingRoundTrip | src/can_socket.cpp:65-126 | sent then received: accepted iff bits 29 and 30 of the id are clear, dlc and data restored, id restored iff below 2^29 |
| CanSocket.FramingIdentity | src/can_socket.cpp:65-126 | a 29-bit frame with zero padding comes back whole |
| Quantizer.ClampNearest | src/protocol.cpp:85 | clamping gives the point of the range nearest to the input |
| Quantizer.FloatToUint | src/protocol.cpp:83-88 | the code lies in [0, 2^bits] and is that of the expansion cell that holds the clamped input |
| Quantizer.CodeExact | src/protocol.cpp:83-97 | the code is n iff the clamped input lies in the n-th cell of the expansion grid |
| Quantizer.Monotone | src/protocol.cpp:83-88 | a larger input never has a smaller code |
| Quantizer.Saturation | src/protocol.cpp:83-88 | the code is 2^bits iff the input is at or above the upper bound, and 0 at or below the lower |
| Quantizer.EncodeDecode | src/protocol.cpp:83-97 | quantising an expanded code gives the code back, for every code up to 2^bits |
| Quantizer.DecodeEncode | src/protocol.cpp:83-97 | expanding a quantised input gives the greatest grid point not above the clamped input, less than a step below |
| Quantizer.OnGridExact | src/protocol.cpp:83-97 | a clamped input is a point of the expansion grid iff expanding its code gives it back |
| Quantizer.Reflection | src/protocol.cpp:83-88 | in a symmetric range code(x) + code(-x) is 2^bits on the grid and 2^bits - 1 off it |
| Rounding.RoundedCodeIsClose | src/protocol.cpp:83-88 | with single-precision rounding of all four operations and up to 16 bits the code stays in [0, 2^bits], is off by at most one, and is exact unless the scaled value is within 6U times 2^bits of a whole number |
| Mit.Quantise | src/protocol.cpp:256-263 | the five codes are at most 2^12 or 2^16, and all fit their fields iff the setpoint is below every upper bound |
| Mit.PackMit | src/protocol.cpp:252-277 | the buffer filled byte by byte is the packing of the five quantised fields |
| Mit.PackFields | src/protocol.cpp:267-275 | the byte-by-byte fill is the packing, and unpacks to the tuple iff every code fits its field |
| Mit.UnpackExact | src/protocol.cpp:267-275 | what a receiver reads for every code the quantiser can produce, with the wrap and the one-bit spill |
| Mit.CodesRoundTrip | src/protocol.cpp:267-275 | unpacking returns the tuple iff every code fits its field |
| Mit.PayloadRoundTrip | src/protocol.cpp:267-275 | every 8-byte payload is the packing of an in-range tuple |
| Mit.FieldBits | src/protocol.cpp:265-275 | the payload as a 64-bit number is the sum of the codes at bits 52, 40, 24, 12 and 0 |
| Mit.FieldRoundTrip | src/protocol.cpp:83-97 | the low bits of a code recover the clamped input within a step iff the input is below the upper bound |
| Mit.MitRoundTrip | src/protocol.cpp:252-277 | all five clamped fields are recovered from below within a step iff all are strictly below their upper bounds |
| Protocol.PackDuty | src/protocol.cpp:136-141 | a word frame with duty times 100000, truncated |
| Protocol.PackCurrent | src/protocol.cpp:146-151 | a word frame with current times 1000, truncated |
| Protocol.PackCurrentBrake | src/protocol.cpp:156-161 | a word frame with brake current times 1000, truncated |
| Protocol.PackVelocityErpm | src/protocol.cpp:166-171 | a word frame with the truncated ERPM |
| Protocol.PackPositionDeg | src/protocol.cpp:176-181 | a word frame with degrees times 10000, truncated |
| Protocol.PackSetOrigin | src/protocol.cpp:188-192 | one byte, 1 for permanent |
| Protocol.PackPositionVelocity | src/protocol.cpp:197-208 | three appends through one cursor fill bytes 0-3, 4-5 and 6-7 |
| Protocol.PackDisable | src/protocol.cpp:213-216 | an empty payload |
| Protocol.PackFeedbackConfig | src/protocol.cpp:227-241 | two flag bits or-ed into the last two bytes |
| Protocol.ReadWord | src/protocol.cpp:136-181 | a signed word command is read back unchanged |
| Protocol.ReadPositionVelocity | src/protocol.cpp:197-208 | all three fields of a position-velocity command are read back unchanged, negatives included |
| Protocol.ReadMit | src/protocol.cpp:252-277 | an MIT frame is read as the quantised setpoint iff it is below every upper bound, and always as what the fields carry of it, wrap and spill included |
| Protocol.ReadServices | src/protocol.cpp:188-241 | the service frames are read back as the request they carry |
| Protocol.DecodeStatusExact | src/protocol.cpp:291-305 | a frame is a status iff its id is 0x2900 plus can_id and its dlc at least 8; it then gives these tenths of a degree, tens of ERPM, hundredths of an ampere, temperature and error code iff it carries their bytes |
| Protocol.DecodeExtendedExact | src/protocol.cpp:311-321 | the same for id 0x2A00 plus can_id, dlc at least 4 and hundredths of a degree |
| Protocol.StartupExact | src/protocol.cpp:328-334 | a frame is the startup marker iff its id is 0x2C00 plus can_id, its dlc at least 4 and its first bytes 0xFAFBFCFD |
| Protocol.WordLayout | src/protocol.cpp:136-181 | id, dlc and the big-endian bytes of a word command, as numbers |
| Protocol.PositionVelocityLayout | src/protocol.cpp:197-208 | id 0x600 plus can_id, and position, speed and acceleration big-endian in bytes 0-3, 4-5 and 6-7 |
| Protocol.ServiceLayout | src/protocol.cpp:188-241 | the service frames byte by byte |
| Protocol.CommandsAreNotFeedback | src/protocol.cpp:136-334 | no frame with a command mode is accepted by any decoder, for any sender and receiver |
| Protocol.FeedbackIsUnambiguous | src/protocol.cpp:291-334 | the three feedback kinds are disjoint and each accepted frame belongs to one can_id |
| Units.DegreesRoundTrip | src/motor_driver_node.cpp:222-229 | the degree conversions are inverse |
| Units.VelocityRoundTrip | src/motor_driver_node.cpp:234-251 | the ERPM conversions are inverse for every positive gearing |
| Units.DegreesPerRadian | src/motor_driver_node.cpp:222-229 | a radian is 57.2957795 degrees, to the digits given |
| Units.ErpmPerRadian | src/motor_driver_node.cpp:234-241 | a rad/s is 9.5492965 turns a minute times pole pairs and gear ratio, to the digits given |
| Units.VelocityPath | src/motor_driver_node.cpp:234-251 | the truncated ERPM stands for a velocity of no opposite sign, no greater magnitude, less than 2 pi / (60 pole pairs gear ratio) away |
| Units.TableIsValid | src/motor_limits.cpp:17-24 | every motor of the table has proper, symmetric ranges and positive gearing |
| Units.TableVelocitiesFit | src/motor_limits.cpp:17-24 | in every motor's velocity range ERPM fits int32 and a tenth of it int16 |
| Units.DocumentedDomainsFit | src/protocol.cpp:134-181 | positions within 36000 degrees and duty within 1 fit int32 after scaling |
| Messages.ReportReadsBack | src/motor_driver_node.cpp:444-467 | a state converts back to the status quantities, negated exactly on an inverted node, the position from the cache if there is one, and the validity flag agrees |
| Messages.DiagnosticMirrorsState | src/motor_driver_node.cpp:466-482 | the diagnostic's level and text agree with the state's error code and text |
| Messages.IntentReadsBack | src/motor_driver_node.cpp:261-312 | what each mode asks of the wire converts back to the commanded SI quantity, negated exactly on an inverted node; braking current and gains are never negated |
| Messages.DocumentedCommandsFit | src/motor_driver_node.cpp:261-312 | a command whose mode's own fields are in the documented domains of a table motor never overflows a field |
| Messages.FrameHeader | src/motor_driver_node.cpp:261-378 | a frame is built exactly for recognised requests, with this node's can_id, the request's mode and its dlc |
| Messages.FrameNumbers | src/motor_driver_node.cpp:261-378 | the same with mode bytes, identifiers and lengths as numbers |
| Messages.FrameReadsBack | src/motor_driver_node.cpp:261-378 | a motor reads from the frame the truncated requested quantities, and an MIT setpoint as quantised iff it is below every upper bound |
| Delivery.CommandDelivered | src/motor_driver_node.cpp:261-323 | every recognised command crosses the framing and is read in SI units, negated on an inverted node only, with no opposite sign, no greater magnitude and less than one wire unit of error; an MIT setpoint within a grid step of the motor's own ranges iff below their upper bounds |
| Delivery.ServiceSent | src/motor_driver_node.cpp:340-378 | the frame of each service call, byte by byte |
| Delivery.StatusPublished | src/motor_driver_node.cpp:389-467 | a raw status frame with given big-endian fields in bytes 0-1, 2-3 and 4-5 is published in SI units, negated on an inverted node only, with the cached position if there is one |
| Delivery.ExtendedAbsorbed | src/motor_driver_node.cpp:404-438 | a raw extended-position frame of given hundredths of a degree puts that position in the cache |
| Steps.ExclusiveStep | src/motor_driver_node.cpp:397-431 | every step keeps mutual exclusion and an empty status queue between the two swaps |
| Steps.MutualExclusion | src/motor_driver_node.cpp:397-431 | in no reachable state are both threads inside the critical section |
| Reduction.StepRefines | src/motor_driver_node.cpp:389-484 | each fine step is invisible or exactly one atomic event |
| Reduction.SettledIsReplay | src/motor_driver_node.cpp:389-484 | with the drain in progress completed, the data of every reachable state is that of the atomic run of its events |
| Reduction.Reduction | src/motor_driver_node.cpp:389-484 | every interleaving publishes a prefix of what an atomic run publishes, and all of it when the executor is idle |
| Schedules.DrainSchedule | src/motor_driver_node.cpp:422-484 | steps of the executor alone, none of them a callback, carry out the atomic drain |
| Schedules.RxSchedule | src/motor_driver_node.cpp:389-415 | one receive and then only RX steps push what the frame decodes to |
| Serial.AtomicRunIsSerial | src/motor_driver_node.cpp:389-484 | every atomic run of possible events is a serial run of the two threads |
| Serial.TraceIsPossible | src/motor_driver_node.cpp:389-415 | the events of every run are possible ones: what RX delivers, some frame carried |
| Serial.Serializable | src/motor_driver_node.cpp:389-484 | every interleaving has a serial run with the same queues, cache, publications and attempts, the drain in progress completed |
| Progress.CatchesUp | src/motor_driver_node.cpp:389-484 | from every reachable state, without new frames or callbacks, the threads can publish or absorb every frame received so far |
| History.Conservation | src/motor_driver_node.cpp:397-483 | published, drained, queued and in-hand frames are in order exactly the decodes of the frames received |
| History.Pairing | src/motor_driver_node.cpp:444-483 | states and diagnostics pair with the published statuses, one diagnostic short only between the two publishes |
| History.CacheExact | src/motor_driver_node.cpp:436-438 | in every state the cache is the last absorbed extended position unless a later disabling call cleared it |
| PositionSource.CacheIsSource | src/motor_driver_node.cpp:433-467 | the cache after any events is the extended position in force among those drained |
| PositionSource.PublishedExactly | src/motor_driver_node.cpp:422-484 | over every interleaved run the published states are those the events determine, each drain using the latest extended position delivered before it unless cleared since an earlier drain |
| Fallback.FallbackExact | src/motor_driver_node.cpp:354-367 | after a disabling call every later publication falls back to the status position iff no extended frame was queued or in hand |
| Fallback.Repopulates | src/motor_driver_node.cpp:436-449 | a queued extended position fills the cache again after the call |
| Fallback.QueuedExtReachable | src/motor_driver_node.cpp:404-411 | the failing situation is reachable |
| Direction.InvertedNodeSendsOpposite | src/motor_driver_node.cpp:261-312 | an inverted node sends for a command what a plain node sends for the opposite command |
| Direction.WireFieldsNegate | src/motor_driver_node.cpp:264-302 | reversing a servo command exactly negates its signed integer fields, braking excepted |
| Direction.MitCodesReflect | src/protocol.cpp:252-263 | reversing an MIT setpoint reflects its three signed codes and keeps the gains |
| Direction.FeedbackSymmetry | src/motor_driver_node.cpp:433-467 | on the same frames and schedule, a node with the other direction runs iff its commands are defined, and then publishes equally many, pointwise reversed states |
| Direction.TurnedRun | src/motor_driver_node.cpp:261-467 | with the direction and every command reversed, every run sends the same frames and publishes the reversed states |
| Transmit.FireOnce | src/motor_driver_node.cpp:261-378 | over every run the send attempts are one per recognised command or service call, in order, with matching header |
| Transmit.CommandArrives | src/can_socket.cpp:65-126 | every frame a callback builds crosses the framing unchanged |
| Bus.ProjectRun | src/motor_driver_node.cpp:389-415 | in a shared run each node makes a run of its own on a prefix of the bus trace |
| Bus.SoloRun | src/motor_driver_node.cpp:389-415 | taking foreign frames off the bus leaves a node's run and data the same |
| Bus.OnlyMotorsMatter | src/motor_driver_node.cpp:412-414 | the own frames of a node on the bus are those the motors sent, whatever commands the nodes send |
| Bus.NonInterference | src/motor_driver_node.cpp:389-415 | all a node has queued, published and attempted is what it would have alone on its own feedback frames |
| Bus.WireIsTraffic | src/can_socket.cpp:65-79 | the bus trace is what motors and nodes put on it, in the order of the run |
| Bus.SuccessesOnWire | src/motor_driver_node.cpp:325-378 | what a node puts on the bus is the framed sequence of its successful attempts, all of them and in order |
| Bus.EachFrameForOneNode | src/motor_driver_node.cpp:389-415 | with distinct can_ids no bus frame is queued by two nodes, and each node's frames are the decodes of the stretch it read |
| Node.MotorDriverNode.PackCommand | src/motor_driver_node.cpp:264-323 | the switch over the mode builds the frame of the command, or none |
| Node.MotorDriverNode.PackWordCommand | src/motor_driver_node.cpp:264-293 | the five single-word cases of the switch build the frame of the command |
| Node.MotorDriverNode.OnCommand | src/motor_driver_node.cpp:261-331 | attempts that frame and changes nothing else |
| Node.MotorDriverNode.OnSetOrigin | src/motor_driver_node.cpp:340-347 | attempts one frame; the response tells whether the write was complete |
| Node.MotorDriverNode.OnSetFeedbackConfig | src/motor_driver_node.cpp:354-367 | attempts one frame; the cache is cleared on a disabling request, whether or not the send succeeded, and kept on an enabling one |
| Node.MotorDriverNode.OnDisable | src/motor_driver_node.cpp:371-378 | attempts one frame; the response tells whether the write was complete |
| Node.MotorDriverNode.RxIteration | src/motor_driver_node.cpp:391-413 | one iteration pushes what the received frame decodes to, or nothing |
| Node.MotorDriverNode.RxThreadMain | src/motor_driver_node.cpp:389-415 | the loop pushes, in order, what its iterations received |
| Node.MotorDriverNode.BuildMessages | src/motor_driver_node.cpp:444-482 | the two messages of a status are its report with the current cache and its diagnosis |
| Node.MotorDriverNode.DrainRxQueueAndPublish | src/motor_driver_node.cpp:422-484 | the two swaps and the two loops are the atomic drain |

## Left out

- System calls and the socket's lifetime: the constructor and destructor of `CanSocket` and its descriptor are kernel I/O; their outcomes are parameters.
- ROS plumbing: publishers, QoS depth, timers, logging, throttling, timestamps, joint names and parameter declaration. A publication is an append to a history.
- Exact binary32 results: apart from the bound in `Rounding`, arithmetic is exact.
- Shutdown: clearing the running flag only ends the RX thread's steps, so runs that stop early cover it. In the class the loop ends when the given poll outcomes do.
- Interference inside the class methods: `Node` gives each method's effect when it runs alone; interleaving is the subject of `Steps`, whose micro-steps follow the same statements.
- The motor itself: nothing in the repository says how it answers a command.
- Wording and table data: the fault texts and the numbers of the motor table are constants; what is proved holds for any fault texts.
- Startup validation, model-name lookup failures, `feedback_hz` and bitrate: single branches or unused by the logic.
- Real-time rates: the 50 ms poll and 200 Hz drain are not decided by the logic.
- Messages.DocumentedCommandsFit: bounds the acceleration by the velocity range of the motor, because the repository states no range for it.
