# A verified model of the Effero runtime

This project models the algorithmic parts of Effero, a runtime for robots and agents, and proves what they
promise. Each module stands beside one component.

| module | models |
|---|---|
| GridRay, OccupancyGrid, GridSearch, EdgePaths, PathCosts, AStar, Rounding | the occupancy grid map, its ray casts, and the A* planner with line-of-sight smoothing |
| Crc16, CrcExamples, Registers, Checksums, ByteWords | the table-driven CRC-16s, against polynomial division of bit strings |
| ByteStuffing, SerialFraming, FramingLayout | Dynamixel byte stuffing and status packets, and the framed serial protocol with resynchronisation |
| MqttProtocol, MqttLayout, PacketStream, ChunkSizes, MqttReader | MQTT 3.1.1 packets and the buffer loop that reads them from a stream |
| TopicFilter, MqttClient, MqttExchanges | topic filters, and the packet identifiers, messages in flight and QoS 2 store of the client |
| MqttSession | the read loop with the packet handlers, from bytes to dispatched messages |
| Cdr, CdrStreams, CdrLayout, Ros2Messages, Ros2Layout | CDR with its alignment, and the two joint messages of the ROS 2 bridge |
| ConditionLexer, ConditionWords, Condition, ConditionMeaning | lexer, parser and evaluator of the safety kernel's conditions, and what a condition means |
| Quintic, QuinticLimits, SegmentSpeed, Turns, TrajectoryPlanner, PlannedSamples, PlanLimits, ViaLimits | quintic segments, the multi-segment planner, and exactly when a plan keeps its limits |
| Auction, Leases, Fleet | sealed-bid auctions, task leases, and the coordinator's failover sweep |
| Episodic | the log of events and its backward chunked reader |
| Base38, Matter, MatterCodes | Matter onboarding payloads as QR codes and manual codes |
| Wrappers | optional values and results |

What changes state in the program is a class or a method with loops here, and each is proved against a
function or predicate that says what it computes; the properties are lemmas about those. Numbers that the
program keeps as floating point are reals. Square roots, cube roots, hypot and
any one zero of a cubic are parameters with the equation that defines them. Float64 values on the wire are eight opaque bytes, and text is a sequence of bytes or
characters. Time, fresh identifiers, bid scores, commitment digests, JSON parsing and the success of sending are parameters.

Where the code does not do what its comments or names suggest, the model follows the code, and a lemma says
exactly when the expectation holds:

- A status packet whose error byte starts FF FF FD loses data, and trailing bytes are parsed as parameters (`StatusRoundTrip`).
- A stream client that meets a malformed packet drops everything buffered, so which packets it handles can depend on the chunks (`RefusedBytesTakeNeighbours`); it does not exactly when no packet starts behind a malformed part of what the leading packets leave (`ChunkingIrrelevantExactly`; `LimitedChunksExactly` for reads of limited size). And a length field that does not end within four bytes stalls the client for ever (`StallsIffOverlong`).
- Durations are rounded after the limits are applied. Between two waypoints the velocity limit survives that; the acceleration and jerk limits are kept exactly when the rounded duration is still long enough (`AccelerationKeptExactly`, `JerkKeptExactly`), and are broken for inputs that the planner rounds down (`RoundingBreaksAccelerationLimit`, `RoundingBreaksJerkLimit`).
- Between via-points none of the three limits is always kept, even without rounding (`ViaPointsBreakSpeedLimit`, `ViaPointsBreakOtherLimits`). Each is kept exactly when it is kept at the few times where the planned motion turns (`ViaSpeedKeptExactly`, `ViaSurgeKeptExactly`, `ViaJoltKeptExactly`); `ViaSpeedFromWaypoints` gives conditions on the waypoints and durations alone.
- Awarding a task twice, or registering a busy node again, puts the active-task count out of step with the leases (`AwardBalanceExactly`, `RegistrationBalanceExactly`).
- A sweep leaves an expired lease behind exactly when it hands one out with a negative duration (`SweptExactly`, `NegativeDefaultStaysExpired`).
- A node that takes over a task can be marked unhealthy later in the same sweep (`HeirFailsExactly`).
- Cell centres are rounded to four decimals, so on a map with a resolution of 0.0001 or less a centre may lie in another cell (`CentreRoundTripExactly`).
- A manual code's check digit is the plain sum of the other digits, and is printed but never checked (`ManualCodeIsChecked`, `CheckDigitIsNotRead`).

## Model

| member | source | states |
|---|---|---|
| GridRay.RayStarts | src/effero/skills/robotics/grid_map.py:122-128 | the loop variables of the ray cast start at cell 0 of the reference ray, which is the straight line rounded to the nearest cell, ties to the start |
| GridRay.RayDecision | src/effero/skills/robotics/grid_map.py:137-143 | for every pair of distances and every step, the two tests on the doubled error move exactly the axes in which the rounded line moves |
| GridRay.RayAdvances | src/effero/skills/robotics/grid_map.py:137-143 | one turn of the loop takes the cell and the error of step k to those of step k + 1, so the loop follows the rounded line |
| GridRay.RayReachesTarget | src/effero/skills/robotics/grid_map.py:134-135 | the ray is at the target exactly at step max(dx, dy), so the loop stops there and never before, for all end points |
| GridRay.RayIsConnected | src/effero/skills/robotics/grid_map.py:129-143 | consecutive cells of a ray are different and 8-adjacent |
| GridRay.RayIsStraight | src/effero/skills/robotics/grid_map.py:117-143 | no cell of a ray is further than half a cell off the straight line, measured along the minor axis |
| GridRay.RayBetweenNeighbours | src/effero/skills/robotics/grid_map.py:176-203 | a ray between two cells that touch visits no third cell |
| OccupancyGrid.CentreRoundTripExactly | src/effero/skills/robotics/grid_map.py:42-52 | converting a cell to its centre, rounded to four decimals, and back is the identity for every origin and cell exactly when the resolution exceeds 0.0001 |
| OccupancyGrid.CellOfCoordinate | src/effero/skills/robotics/grid_map.py:42-46 | a coordinate belongs to the cell between whose borders it lies, the lower border included |
| OccupancyGrid.CentreOfCell | src/effero/skills/robotics/grid_map.py:48-52 | the centre of a cell is in the middle between its borders, up to the rounding |
| OccupancyGrid.CellsCoverExactly | src/effero/skills/robotics/grid_map.py:35-36 | the cells of a map cover its stretch, and one cell less would not |
| OccupancyGrid.OccupancyGridMap.GridToWorldAndBack | src/effero/skills/robotics/grid_map.py:42-52 | on such a map the round trip of every cell is the identity |
| OccupancyGrid.OccupancyGridMap.constructor | src/effero/skills/robotics/grid_map.py:16-40 | a valid map: all cells free, no raw obstacles, sizes rounded up |
| OccupancyGrid.OccupancyGridMap.Create | src/effero/skills/robotics/grid_map.py:16-27 | refused exactly when the bounds are not in order or the resolution is not positive, and otherwise a valid map without obstacles |
| OccupancyGrid.OccupancyGridMap.SetCell | src/effero/skills/robotics/grid_map.py:61-62 | writes one cell of the row-major array and no other |
| OccupancyGrid.OccupancyGridMap.SetObstacle | src/effero/skills/robotics/grid_map.py:78-83 | marks the cell of a point when it is in bounds, in the array and in the raw set alike |
| OccupancyGrid.OccupancyGridMap.AddRectangularObstacle | src/effero/skills/robotics/grid_map.py:85-96 | the cells marked are exactly those of the box between the two corners that are on the map; array and raw set stay in step |
| OccupancyGrid.OccupancyGridMap.AddCircularObstacle | src/effero/skills/robotics/grid_map.py:98-115 | the cells marked are exactly the cells on the map whose squared distance is within the squared radius, no cell of the disc being missed by the scanned square |
| OccupancyGrid.OccupancyGridMap.AddLineObstacle | src/effero/skills/robotics/grid_map.py:117-143 | the loop terminates for all end points and marks exactly the cells on the map that are on the reference ray |
| OccupancyGrid.OccupancyGridMap.KernelOffsets | src/effero/skills/robotics/grid_map.py:150-160 | the offsets are exactly the cells of the disc around the origin but the origin itself |
| OccupancyGrid.OccupancyGridMap.ClearInflation | src/effero/skills/robotics/grid_map.py:162-166 | afterwards a cell is an obstacle if it is a raw obstacle and free otherwise |
| OccupancyGrid.OccupancyGridMap.InflateAround | src/effero/skills/robotics/grid_map.py:169-174 | one obstacle inflates exactly the free cells of its disc |
| OccupancyGrid.OccupancyGridMap.InflateObstacles | src/effero/skills/robotics/grid_map.py:145-174 | for a positive radius every cell is an obstacle, inflated or free exactly as its distance to the raw obstacles says, whatever was inflated before and in whatever order the set is walked; otherwise nothing changes |
| OccupancyGrid.OccupancyGridMap.InflationOnlyBlocks | src/effero/skills/robotics/grid_map.py:64-71 | counting inflated cells as occupied only takes free cells away, and without it the free cells are the cells that are no raw obstacles |
| OccupancyGrid.OccupancyGridMap.IsLineClear | src/effero/skills/robotics/grid_map.py:176-203 | terminates for all end points; true exactly when every cell of the reference ray is on the map and free |
| GridSearch.PoppedIsOptimal | src/effero/skills/robotics/planning/a_star.py:107-114 | with a consistent heuristic, the score of a popped open cell is a lower bound of the cost of every legal path to it |
| GridSearch.ClosePreserves | src/effero/skills/robotics/planning/a_star.py:111-114 | closing the popped cell keeps the search invariant |
| GridSearch.SkipPreserves | src/effero/skills/robotics/planning/a_star.py:111-112 | dropping an entry of a closed cell keeps the search invariant |
| GridSearch.ExpandPreserves | src/effero/skills/robotics/planning/a_star.py:122-145 | relaxing all moves of a freshly closed cell restores the search invariant with nothing left to relax |
| GridSearch.ClosedNotImproved | src/effero/skills/robotics/planning/a_star.py:139-145 | a move between closed cells never improves a score |
| GridSearch.ClosedGoalIsShortest | src/effero/skills/robotics/planning/a_star.py:116-118 | when the goal is closed, its path is a shortest legal path and its score is the cost of it |
| GridSearch.ExhaustedMeansUnreachable | src/effero/skills/robotics/planning/a_star.py:147-148 | an empty queue without the goal closed means that no legal path exists |
| AStar.OctileConsistent | src/effero/skills/robotics/planning/a_star.py:52-56 | the octile distance is consistent for every set of free cells: it is zero at the goal, and no move lowers it by more than the move costs |
| AStar.OctileZero | src/effero/skills/robotics/planning/a_star.py:52-56 | the octile distance is never negative, and zero at the goal only |
| AStar.TriangleInequality | src/effero/skills/robotics/planning/a_star.py:198-206 | the length of a segment obeys the triangle inequality |
| AStar.SmoothedNotLonger | src/effero/skills/robotics/planning/a_star.py:176-196 | leaving out waypoints never makes a path longer |
| AStar.AStarPlanner.HeuristicIsOctile | src/effero/skills/robotics/planning/a_star.py:52-56 | the formula with max and min is the octile distance of the search problem |
| AStar.AStarPlanner.HeapPop | src/effero/skills/robotics/planning/a_star.py:108 | extract-min by score, then by counter; the rest keeps the other entries |
| AStar.AStarPlanner.IsLegal | src/effero/skills/robotics/planning/a_star.py:127-137 | the bounds, occupancy and corner tests together are exactly the legality of a move |
| AStar.AStarPlanner.Relax | src/effero/skills/robotics/planning/a_star.py:123-145 | one neighbour is treated as the reference relaxation says |
| AStar.AStarPlanner.Expand | src/effero/skills/robotics/planning/a_star.py:120-145 | the loop over the motions relaxes all eight neighbours |
| AStar.AStarPlanner.Search | src/effero/skills/robotics/planning/a_star.py:93-156 | terminates; gives nothing exactly when no legal path exists, and otherwise a legal path of least cost, with its cost, having expanded no more cells than are free |
| AStar.AStarPlanner.Reconstruct | src/effero/skills/robotics/planning/a_star.py:150-156 | following the predecessors from the goal ends at the start, with the path whose cost is the score of the goal |
| AStar.AStarPlanner.FurthestVisible | src/effero/skills/robotics/planning/a_star.py:185-191 | the furthest waypoint in line of sight, or the next one |
| AStar.AStarPlanner.SmoothPath | src/effero/skills/robotics/planning/a_star.py:176-196 | a subsequence with both ends kept; every hop is to the next waypoint or clear, and every hop is the furthest clear one |
| AStar.AStarPlanner.CalculatePathDistance | src/effero/skills/robotics/planning/a_star.py:198-206 | the sum of the segment lengths |
| AStar.AStarPlanner.RawWalkable | src/effero/skills/robotics/planning/a_star.py:158-163 | every ray between consecutive raw waypoints runs over free cells when the resolution exceeds 0.0001 |
| AStar.AStarPlanner.SmoothedWalkable | src/effero/skills/robotics/planning/a_star.py:176-196 | smoothing keeps that |
| AStar.AStarPlanner.TrivialPlan | src/effero/skills/robotics/planning/a_star.py:84-91 | start and goal in one cell: the two-point plan is walkable and its length is the distance |
| AStar.AStarPlanner.Plan | src/effero/skills/robotics/planning/a_star.py:58-174 | None exactly when start or goal is blocked or no legal path exists; otherwise the waypoints come from a shortest grid path, keep both ends, are a subsequence of the raw ones, are walkable, and are no longer than the raw path; smoothed, and with more than two cells, each of them is the furthest raw waypoint in sight of the one before; no cell is expanded when both ends share one, and otherwise between one and all free cells are |
| AStar.AStarPlanner.ToPlan | src/effero/skills/robotics/planning/a_star.py:158-174 | a found path as a plan: all raw waypoints, or those that are reached by always going to the furthest one in sight |
| EdgePaths.CornersCount | src/effero/skills/robotics/planning/a_star.py:127-137 | a move between free neighbours is legal exactly when every cell that touches both is free |
| EdgePaths.PathAlongEdges | src/effero/skills/robotics/planning/a_star.py:127-137 | every planned grid path can be refined to one through free cells that share edges, which visits all of its cells |
| EdgePaths.ReachableExactly | src/effero/skills/robotics/planning/a_star.py:127-148 | so a goal can be reached exactly when free cells that share edges connect it to the start |
| PathCosts.StepIsDistance | src/effero/skills/robotics/planning/a_star.py:38-47 | a step costs the distance between the centres of its two cells |
| PathCosts.CostIsLength | src/effero/skills/robotics/planning/a_star.py:139-145 | the cost of a legal path, which the search minimises, is the length of the way through the centres of its cells |
| Crc16.BurstDetected | src/effero/adapters/serial_gpio/framing.py:67-74 | for any generator with a constant term, two bit strings that differ only within 16 consecutive bits have different remainders, whatever the initial value |
| Crc16.DivideByTable | src/effero/adapters/serial_gpio/framing.py:25-45 | one table step: the remainder after up to 16 bits is the shifted register plus the remainder of the bits shifted out |
| Crc16.RemainderIsDivide | src/effero/adapters/serial_gpio/framing.py:25-45 | a register that is shifted and reduced bit by bit holds the remainder of polynomial division, in either bit order |
| Crc16.CoefficientsInjective | src/effero/adapters/serial_gpio/framing.py:47-74 | a register is determined by the coefficients it holds, so two computations with equal remainders have equal registers |
| Crc16.LookUpIsRemainder | src/effero/adapters/serial_gpio/framing.py:48-74 | one table look-up, move by a byte and exclusive or takes eight steps of that division |
| Crc16.MsbIsLawful | src/effero/adapters/serial_gpio/framing.py:35-45 | the operations on the 0x1021 register, most significant bit first, obey the laws that the division rests on |
| Crc16.LsbIsLawful | src/effero/adapters/serial_gpio/framing.py:25-33 | so do those on the reflected 0xA001 register |
| Crc16.ErrorChangesCrc | src/effero/adapters/serial_gpio/framing.py:48-74 | any change within one or two adjacent bytes changes the CRC, in either form |
| Crc16.OneByteErrorDetected | src/effero/adapters/serial_gpio/framing.py:48-74 | two messages of one length that differ in exactly one byte have different CRCs, in either form and for every initial value |
| Crc16.Crc16Engine.InitTables | src/effero/adapters/serial_gpio/framing.py:20-45 | fills both tables once; every entry is the remainder of its index |
| Crc16.Crc16Engine.ComputeModbus | src/effero/adapters/serial_gpio/framing.py:48-55 | equals bit-at-a-time division for every message |
| Crc16.Crc16Engine.ComputeDynamixel | src/effero/adapters/serial_gpio/framing.py:57-65 | equals bit-at-a-time division by 0x1021 from zero for every message |
| Crc16.Crc16Engine.ComputeCcitt | src/effero/adapters/serial_gpio/framing.py:67-74 | equals bit-at-a-time division by 0x1021 from the initial value for every message |
| CrcExamples.ByteLsb | src/effero/adapters/serial_gpio/framing.py:47-55 | one byte of bit-at-a-time division is one look-up with an entry made by eight shifts |
| CrcExamples.ModbusCheckValue | src/effero/adapters/serial_gpio/framing.py:47-55 | the characters 1 to 9 have the checksum 0x4B37, the check value of CRC-16/MODBUS |
| CrcExamples.CcittCheckValue | src/effero/adapters/serial_gpio/framing.py:67-74 | from the initial value 0xFFFF they have 0x29B1, the check value of CRC-16/CCITT-FALSE |
| CrcExamples.DynamixelCheckValue | src/effero/adapters/serial_gpio/framing.py:57-65 | from zero they have 0x31C3, the check value of CRC-16/XMODEM |
| Checksums.OneByteErrorDetected | src/effero/adapters/serial_gpio/framing.py:57-74 | the checksums as numbers still tell every change of one byte |
| ByteStuffing.UnstuffUndoesStuff | src/effero/adapters/serial_gpio/framing.py:137-165 | unstuffing undoes stuffing for all data |
| ByteStuffing.StuffEscapes | src/effero/adapters/serial_gpio/framing.py:137-150 | in stuffed data every FF FF FD is followed by FD |
| ByteStuffing.StuffRestoresExactlyEscaped | src/effero/adapters/serial_gpio/framing.py:137-165 | stuffing undoes unstuffing exactly for the data in which every FF FF FD is followed by FD |
| ByteStuffing.ByteStuff | src/effero/adapters/serial_gpio/framing.py:137-150 | the loop computes the recursive stuffing |
| ByteStuffing.ByteUnstuff | src/effero/adapters/serial_gpio/framing.py:152-165 | the loop computes the recursive unstuffing |
| ByteStuffing.StatusRoundTrip | src/effero/adapters/serial_gpio/framing.py:167-188 | a status packet, followed by trailing bytes, is parsed back to its fields exactly when nothing trails and the error byte does not start an escaped pattern |
| ByteStuffing.EscapedErrorLost | src/effero/adapters/serial_gpio/framing.py:247-249 | when the error byte starts an escaped pattern, its first byte is cut off before unstuffing and the parameters do not come back, whatever follows |
| ByteStuffing.BodyParsesTo | src/effero/adapters/serial_gpio/framing.py:220-256 | a packet whose announced bytes carry their checksum yields its identifier, its error byte and the unstuffed bytes between the error byte and two before the end of all bytes received, whatever trails |
| SerialFraming.ScanSkips | src/effero/adapters/serial_gpio/framing.py:447-460 | bytes in front of the first start mark do not matter |
| SerialFraming.ResidueSuffices | src/effero/adapters/serial_gpio/framing.py:442-497 | what is kept in the buffer is enough: decoding all bytes at once gives the packets of the first part and then those of the residue with the rest |
| SerialFraming.ResidueIsSpent | src/effero/adapters/serial_gpio/framing.py:442-497 | the residue yields no packet by itself and is shorter than one maximal frame |
| SerialFraming.SerialFramedProtocol.Feed | src/effero/adapters/serial_gpio/framing.py:442-497 | returns the packets of the reference scan of buffer and data, and leaves the residue, for every input including bad end marks and checksums |
| SerialFraming.ChunkingIrrelevant | src/effero/adapters/serial_gpio/framing.py:442-497 | for every byte stream and every split the packets fed out are those of the whole stream |
| SerialFraming.StreamDecodes | src/effero/adapters/serial_gpio/framing.py:434-497 | encoded frames with noise free of start marks between them decode to exactly the packets, in order |
| SerialFraming.RoundTrip | src/effero/adapters/serial_gpio/framing.py:434-497 | and do so under every split into chunks |
| SerialFraming.EncodedFrameArrives | src/effero/adapters/serial_gpio/framing.py:434-497 | a frame encoded from any numbers decodes to them, sequence and command cut down to a byte, and leaves nothing in the buffer; too long a payload is refused |
| SerialFraming.CorruptedFrameRejected | src/effero/adapters/serial_gpio/framing.py:485-491 | a frame with one byte of its sequence, command or payload changed is complete and is rejected |
| SerialFraming.CcittDetectsOneByte | src/effero/adapters/serial_gpio/framing.py:485-491 | the checksum of the protocol has the property that the rejection rests on |
| SerialFraming.FrameAfterGarbage | src/effero/adapters/serial_gpio/framing.py:442-497 | a good frame is found behind any bytes in which every start mark introduces a complete frame that is rejected, even one that would reach into the good frame |
| FramingLayout.FrameInOrder | src/effero/adapters/serial_gpio/framing.py:434-440 | where every byte of a frame stands: AA 55, sequence, command, length with the high byte first, payload, checksum with the high byte first, 55 AA |
| FramingLayout.InstructionInOrder | src/effero/adapters/serial_gpio/framing.py:167-188 | where every byte of an instruction packet stands: FF FF FD 00, identifier, length with the low byte first, instruction, stuffed parameters, checksum with the low byte first |
| FramingLayout.StuffLength | src/effero/adapters/serial_gpio/framing.py:137-150 | stuffing adds exactly one byte for each occurrence of FF FF FD |
| FramingLayout.PingPacket | src/effero/adapters/serial_gpio/framing.py:190-192 | the ping packet of device 1 is FF FF FD 00 01 03 00 01 04 D1 |
| MqttProtocol.EncodeVarint | src/effero/adapters/mqtt_matter/protocol.py:30-43 | the loop gives the base-128 digits of every value in range and refuses every other |
| MqttProtocol.DecodeVarint | src/effero/adapters/mqtt_matter/protocol.py:46-68 | the loop reads at most four digits from the offset, as the recursive reader does; too few bytes and a fifth digit are alike invalid |
| MqttProtocol.VarintRead | src/effero/adapters/mqtt_matter/protocol.py:30-68 | a varint followed by anything reads back as its value and length, in one to four bytes; section 2.2.3 of MQTT 3.1.1 |
| MqttProtocol.VarintPrefix | src/effero/adapters/mqtt_matter/protocol.py:46-68 | no strict prefix of a varint reads as one |
| MqttProtocol.VarintStable | src/effero/adapters/mqtt_matter/protocol.py:46-68 | what has been read does not change when more bytes arrive |
| MqttProtocol.ConnectRoundTrip | src/effero/adapters/mqtt_matter/protocol.py:129-182 | the variable header and payload of a CONNECT read back, flags and optional fields included |
| MqttProtocol.PublishRoundTrip | src/effero/adapters/mqtt_matter/protocol.py:199-228 | the flags and body of a PUBLISH read back, with an identifier exactly when the QoS is positive |
| MqttProtocol.BodyRoundTrip | src/effero/adapters/mqtt_matter/protocol.py:391-593 | the same for all fourteen packet types |
| MqttProtocol.DecodeTopics | src/effero/adapters/mqtt_matter/protocol.py:542-556 | the loop reads the topics and QoS bytes of a SUBSCRIBE as the recursive reader does, short strings included |
| MqttProtocol.DecodeFilters | src/effero/adapters/mqtt_matter/protocol.py:566-576 | the loop reads the filters of an UNSUBSCRIBE as the recursive reader does |
| MqttProtocol.DecodePacket | src/effero/adapters/mqtt_matter/protocol.py:391-593 | computes the reference decoding for every buffer: the packet and its length, more bytes wanted, or an error |
| MqttProtocol.WireRoundTrip | src/effero/adapters/mqtt_matter/protocol.py:386-593 | for every well-formed packet and every continuation, decoding its encoding gives the packet and its length |
| MqttProtocol.StrictPrefixWaits | src/effero/adapters/mqtt_matter/protocol.py:391-420 | every strict prefix of an encoded packet asks for more bytes |
| MqttProtocol.DecodedIsWellFormed | src/effero/adapters/mqtt_matter/protocol.py:391-593 | whatever is decoded from any bytes is well-formed and consumes at least two and at most all bytes |
| MqttProtocol.RoundTripIff | src/effero/adapters/mqtt_matter/protocol.py:386-593 | an encodable packet comes back exactly when it is well-formed |
| MqttProtocol.EncodedComesBack | src/effero/adapters/mqtt_matter/protocol.py:386-593 | what the encoder accepts decodes to itself, whatever follows, exactly when it is well-formed |
| MqttProtocol.PacketIsPrompt | src/effero/adapters/mqtt_matter/protocol.py:391-593 | a packet is decided by the bytes it consumes: what follows them plays no part |
| MqttProtocol.VerdictIsFinal | src/effero/adapters/mqtt_matter/protocol.py:391-593 | a packet or an error is not changed by bytes that arrive later |
| MqttProtocol.StallsIffOverlong | src/effero/adapters/mqtt_matter/protocol.py:391-420 | a buffer waits for ever, whatever arrives, exactly when its type is valid and its length field does not end within four bytes |
| MqttLayout.StartsWithFirstByte | src/effero/adapters/mqtt_matter/protocol.py:145-388 | the first byte of every packet, type and flags: 0x62 for PUBREL, 0x82 for SUBSCRIBE, 0xA2 for UNSUBSCRIBE, with the bits of a PUBLISH; behind it the length and the body; section 2.2 of MQTT 3.1.1 |
| MqttLayout.VarintIsWorth | src/effero/adapters/mqtt_matter/protocol.py:30-43 | a length is worth seven bits of each byte, the first byte in units and each next one in 128 times as many; all bytes but the last have the top bit set, and there are as few as can be |
| MqttLayout.ConnectFlagBits | src/effero/adapters/mqtt_matter/protocol.py:129-182 | which bit of the CONNECT flags says what |
| MqttLayout.ConnectInOrder | src/effero/adapters/mqtt_matter/protocol.py:129-182 | the fields of a CONNECT, in their order, each text with its length in front, high byte first |
| MqttLayout.PublishInOrder | src/effero/adapters/mqtt_matter/protocol.py:199-228 | a PUBLISH is its topic, its identifier from QoS 1 on, and its payload |
| MqttLayout.AcknowledgementIsIdentifier | src/effero/adapters/mqtt_matter/protocol.py:231-348 | the packets that only acknowledge are their identifier, high byte first |
| MqttLayout.SubscribeInOrder | src/effero/adapters/mqtt_matter/protocol.py:285-300 | a SUBSCRIBE is its identifier and one topic with its QoS after the other |
| MqttLayout.UnsubscribeInOrder | src/effero/adapters/mqtt_matter/protocol.py:321-335 | an UNSUBSCRIBE is its identifier and one filter after the other |
| MqttLayout.AnswersInOrder | src/effero/adapters/mqtt_matter/protocol.py:185-317 | the bytes of CONNACK and SUBACK |
| MqttLayout.PublishExample | src/effero/adapters/mqtt_matter/protocol.py:199-228 | the message of the example in section 3.3.2, byte by byte |
| MqttLayout.ConnectExample | src/effero/adapters/mqtt_matter/protocol.py:129-182 | the variable header of the example in section 3.1.2.11, byte by byte |
| PacketStream.Reader.Receive | src/effero/adapters/mqtt_matter/client.py:303-317 | one chunk: the packets handled and what stays buffered are those of draining the buffer and the chunk |
| PacketStream.DrainInTwo | src/effero/adapters/mqtt_matter/client.py:304-317 | draining a stream without refusals in two parts gives the packets of draining it at once |
| PacketStream.ChunkingIrrelevant | src/effero/adapters/mqtt_matter/client.py:294-317 | so under every chunking of such a stream the same packets are handled |
| PacketStream.StreamRoundTrip | src/effero/adapters/mqtt_matter/client.py:294-317 | encoded packets, and an incomplete one behind them, arrive exactly and in order under every chunking |
| PacketStream.ChunkingIrrelevantExactly | src/effero/adapters/mqtt_matter/client.py:294-317 | for every stream, all chunkings handle the same packets exactly when, in what follows its leading packets, no packet starts right behind a malformed part |
| PacketStream.RefusedBytesTakeNeighbours | src/effero/adapters/mqtt_matter/client.py:305-310 | a failing family: the packet behind refused bytes is handled or lost depending on the chunks |
| ChunkSizes.LimitedChunksExactly | src/effero/adapters/mqtt_matter/client.py:294-317 | for every stream and every greatest chunk size, all chunkings up to that size handle exactly the packets of the stream taken at once, if and only if no packet starts where refused bytes can end, however often bytes are refused |
| ChunkSizes.UnsafeChunks | src/effero/adapters/mqtt_matter/client.py:297-310 | and otherwise there are chunks within that size that let a packet through behind refused bytes |
| MqttReader.DecodeIsLawful | src/effero/adapters/mqtt_matter/client.py:304-317 | the packet decoder meets what the loop relies on: final verdicts and progress |
| MqttReader.PacketsArrive | src/effero/adapters/mqtt_matter/client.py:294-317 | under any chunking the read loop handles exactly the well-formed packets sent so far |
| MqttReader.DecodeIsPrompt | src/effero/adapters/mqtt_matter/client.py:304-317 | and it decides a packet by the bytes of the packet |
| MqttReader.ChunkingIrrelevantExactly | src/effero/adapters/mqtt_matter/client.py:294-317 | so for every byte stream, the packets handled do not depend on the chunks exactly when no packet starts behind a malformed part of what the leading packets leave |
| MqttReader.LimitedChunksExactly | src/effero/adapters/mqtt_matter/client.py:297-317 | the same for reads of at most any given number of bytes, such as the 4096 of the client |
| MqttReader.MalformedEndIsHarmless | src/effero/adapters/mqtt_matter/client.py:304-317 | a stream that is malformed and has nothing behind the malformed part is unaffected by chunking |
| MqttReader.MalformedDropsNeighbours | src/effero/adapters/mqtt_matter/client.py:307-310 | a malformed packet takes a good one with it when they arrive in one chunk, and does not otherwise |
| TopicFilter.TopicMatches | src/effero/adapters/mqtt_matter/client.py:37-71 | true exactly when the levels agree up to a multi-level wildcard or the end, and the topic is not internal unless the filter is; section 4.7 of MQTT 3.1.1 |
| TopicFilter.HashMatches | src/effero/adapters/mqtt_matter/client.py:44-45 | the filter # matches exactly the topics that do not start with $ |
| TopicFilter.PlainFilterMatchesItself | src/effero/adapters/mqtt_matter/client.py:37-71 | a filter without wildcards matches exactly the topic of the same name |
| TopicFilter.JoinUndoesLevels | src/effero/adapters/mqtt_matter/client.py:51-52 | the levels of a topic, joined again, are the topic |
| MqttClient.ReleaseDispatchesLatest | src/effero/adapters/mqtt_matter/client.py:403-409 | over every history, a PUBREL dispatches exactly the latest PUBLISH stored for its identifier since the last one; section 4.3.3 of MQTT 3.1.1 |
| MqttClient.SecondReleaseDispatchesNothing | src/effero/adapters/mqtt_matter/client.py:403-409 | a PUBREL without a PUBLISH since the last one dispatches nothing, and is still answered with PUBCOMP |
| MqttClient.DeliveredAtMostOnce | src/effero/adapters/mqtt_matter/client.py:403-429 | over every history, no more messages are delivered for an identifier than were stored, nor than were released |
| MqttClient.IdsComeBackLate | src/effero/adapters/mqtt_matter/client.py:158-162 | an identifier is issued again after 65535 others at the earliest |
| MqttClient.DecodedHasId | src/effero/adapters/mqtt_matter/client.py:374-432 | decoded packets carry an identifier exactly from QoS 1 on, which is what the handlers rely on |
| MqttClient.MqttAdapter.GetNextPacketId | src/effero/adapters/mqtt_matter/client.py:158-162 | the identifiers run through 1 to 65535 in turn |
| MqttClient.MqttAdapter.Publish | src/effero/adapters/mqtt_matter/client.py:497-512 | the message is in flight under the identifier issued, future and packet together; a message still in flight under it is 65535 identifiers old |
| MqttClient.MqttAdapter.TimeOut | src/effero/adapters/mqtt_matter/client.py:514-518 | a timeout cancels the future and leaves the message in flight |
| MqttClient.MqttAdapter.Acknowledge | src/effero/adapters/mqtt_matter/client.py:392-396 | PUBACK or PUBCOMP removes future and packet together, and completes the future unless it was cancelled |
| MqttClient.MqttAdapter.Release | src/effero/adapters/mqtt_matter/client.py:403-409 | PUBREL: PUBCOMP first, then the stored message; when sending fails the message stays stored |
| MqttClient.MqttAdapter.Receive | src/effero/adapters/mqtt_matter/client.py:418-429 | PUBLISH: dispatched at once for QoS 0, after PUBACK for QoS 1, stored for QoS 2 |
| MqttClient.MqttAdapter.HandlePacket | src/effero/adapters/mqtt_matter/client.py:374-432 | for every packet and every outcome of sending, what is dispatched, answered, stored and in flight stays what the history says |
| MqttExchanges.ImmediateDispatchedOnce | src/effero/adapters/mqtt_matter/client.py:418-429 | over every run, each message of QoS 0 and each acknowledged one of QoS 1 is dispatched exactly once, and in order |
| MqttExchanges.EachIsAnswered | src/effero/adapters/mqtt_matter/client.py:392-429 | over every run, the client sends one PUBACK for each message of QoS 1, one PUBREC for each of QoS 2, one PUBREL for each PUBREC and one PUBCOMP for each PUBREL that it could answer, in that order |
| MqttSession.ServedInTwo | src/effero/adapters/mqtt_matter/client.py:303-317 | packets that arrive in two parts are handled part by part, the second part only if every answer in the first could be sent |
| MqttSession.Session.NextPacket | src/effero/adapters/mqtt_matter/client.py:303-316 | one turn of the inner loop up to the handler: the next packet, or the buffer kept, dropped or given up as draining it does |
| MqttSession.Session.Handle | src/effero/adapters/mqtt_matter/client.py:317-323 | one packet is handled; a failure to send its answer ends the loop |
| MqttSession.Session.Receive | src/effero/adapters/mqtt_matter/client.py:303-323 | one chunk: what is handled are the packets of the buffer and the chunk, up to the first whose answer cannot be sent, and such a packet ends the loop |
| MqttSession.Session.Run | src/effero/adapters/mqtt_matter/client.py:290-323 | a whole stream: what is handled are the packets of all chunks up to the first that cannot be answered |
| MqttSession.PacketsAreServed | src/effero/adapters/mqtt_matter/client.py:290-432 | encoded packets are handled in their order under every chunking and for every outcome of sending, up to the first that cannot be answered |
| MqttSession.Serve | src/effero/adapters/mqtt_matter/client.py:290-432 | from bytes to messages: a new client that reads encoded packets, in whatever chunks, dispatches and answers exactly what these packets ask for |
| Cdr.UInt32Read | src/effero/adapters/ros2/bridge.py:121-123 | a number written behind any prefix is read back from there, after the same gap; section 9.3 of CORBA 3.3 Part 2 |
| Cdr.GapAligns | src/effero/adapters/ros2/bridge.py:106-109 | the padding leads to the next position behind the encapsulation header that the alignment divides, and is shorter than the alignment |
| Cdr.Bytes32RoundTrip | src/effero/adapters/ros2/bridge.py:121-123 | a 32-bit number has its least significant byte first |
| Cdr.FloatRead | src/effero/adapters/ros2/bridge.py:125-127 | the same for a float |
| Cdr.TextRead | src/effero/adapters/ros2/bridge.py:129-133 | the same for a string with its length and terminator; when the data end early the reader fails or runs behind the end |
| Cdr.TextSequenceRead | src/effero/adapters/ros2/bridge.py:135-139 | the same for a sequence of strings, empty ones included |
| Cdr.FloatSequenceRead | src/effero/adapters/ros2/bridge.py:141-145 | the same for a sequence of floats |
| Cdr.ManyRead | src/effero/adapters/ros2/bridge.py:293-303 | the same for a counted list of any values whose reader undoes their writer |
| CdrStreams.CdrEncoder.Pad | src/effero/adapters/ros2/bridge.py:106-109 | adds zeros, fewer than the alignment, up to the next multiple counted from behind the encapsulation header |
| CdrStreams.CdrEncoder.WriteString | src/effero/adapters/ros2/bridge.py:129-133 | appends padding, length, bytes and terminator |
| CdrStreams.CdrEncoder.WriteSequenceString | src/effero/adapters/ros2/bridge.py:135-139 | appends the count and then every string at its own alignment |
| CdrStreams.CdrEncoder.WriteSequenceFloat64 | src/effero/adapters/ros2/bridge.py:141-145 | appends the count and then every float at its own alignment |
| CdrStreams.CdrDecoder.Align | src/effero/adapters/ros2/bridge.py:167-170 | goes to the next multiple counted from behind the encapsulation header, which is where the encoder pads to |
| CdrStreams.CdrDecoder.ReadString | src/effero/adapters/ros2/bridge.py:200-207 | the reference reader, final position included; a slice that is too short is no error |
| CdrStreams.CdrDecoder.ReadSequenceString | src/effero/adapters/ros2/bridge.py:209-211 | the reference reader of a sequence of strings |
| CdrStreams.CdrDecoder.ReadSequenceFloat64 | src/effero/adapters/ros2/bridge.py:213-215 | the reference reader of a sequence of floats |
| Ros2Messages.HeaderRead | src/effero/adapters/ros2/bridge.py:221-232 | a header written behind any prefix is read back, and the reader ends where the writer did |
| Ros2Messages.PointRead | src/effero/adapters/ros2/bridge.py:260-284 | the same for a trajectory point |
| Ros2Messages.PointsRead | src/effero/adapters/ros2/bridge.py:291-303 | the same for a list of points, the empty list included |
| Ros2Messages.JointStateRoundTrip | src/effero/adapters/ros2/bridge.py:234-258 | for every joint state in range, the serialised bytes with anything behind them deserialise to it, and every strict prefix is refused |
| Ros2Messages.JointTrajectoryRoundTrip | src/effero/adapters/ros2/bridge.py:286-308 | the same for every joint trajectory, nested and empty sequences included |
| Ros2Messages.SerializeJointState | src/effero/adapters/ros2/bridge.py:234-242 | the calls on the encoder produce the reference bytes, which `JointStateLayout` describes |
| Ros2Messages.DeserializeJointState | src/effero/adapters/ros2/bridge.py:244-258 | the calls on the decoder produce the reference message, or an error |
| Ros2Messages.SerializeJointTrajectory | src/effero/adapters/ros2/bridge.py:286-295 | the calls on the encoder produce the reference bytes, which `JointTrajectoryLayout` describes |
| Ros2Messages.DeserializeJointTrajectory | src/effero/adapters/ros2/bridge.py:297-308 | the calls on the decoder produce the reference message, or an error |
| CdrLayout.ItemsStand | src/effero/adapters/ros2/bridge.py:102-145 | each item that was laid down can be found at a position behind the header that its size divides |
| CdrLayout.LaidIsUnique | src/effero/adapters/ros2/bridge.py:102-145 | the items determine every byte, padding included |
| CdrLayout.TextLaid | src/effero/adapters/ros2/bridge.py:129-133 | a string is its length with the terminator, at a multiple of four, and its bytes with the terminator |
| CdrLayout.FloatSequenceLaid | src/effero/adapters/ros2/bridge.py:141-145 | a sequence of floats is its count at a multiple of four and every float at the next multiple of eight |
| Ros2Layout.JointStateLayout | src/effero/adapters/ros2/bridge.py:234-242 | a serialised joint state is the encapsulation header and the numbers and texts of the message in their order, each at the next position that its size divides, with zeros between and nothing else |
| Ros2Layout.JointTrajectoryLayout | src/effero/adapters/ros2/bridge.py:286-295 | the same for a joint trajectory with all of its points |
| Ros2Layout.JointStateAligned | src/effero/adapters/ros2/bridge.py:234-242 | so every number in it starts at a multiple of its size behind the header |
| Ros2Layout.JointTrajectoryAligned | src/effero/adapters/ros2/bridge.py:286-295 | the same for a joint trajectory |
| ConditionLexer.Tokenize | crates/effero-safety-kernel/src/condition.rs:78-176 | the loop gives the token list of the recursive lexer, or an error, for every input |
| ConditionLexer.LexSpaced | crates/effero-safety-kernel/src/condition.rs:78-176 | words that spell tokens, with blanks between them, give back exactly those tokens |
| ConditionWords.FixedWordSpells | crates/effero-safety-kernel/src/condition.rs:85-170 | the word of every symbol and constant |
| ConditionWords.NameSpells | crates/effero-safety-kernel/src/condition.rs:154-170 | every word of letters, digits and underscores that starts with no digit and is no constant is a name |
| ConditionWords.NumberSpells | crates/effero-safety-kernel/src/condition.rs:139-152 | a number is worth what its digits stand for, as many places down as there are digits behind the point, with its sign |
| ConditionWords.WrittenIsRead | crates/effero-safety-kernel/src/condition.rs:78-176 | tokens that are written down with blanks between them are read back |
| Condition.ParserIsExact | crates/effero-safety-kernel/src/condition.rs:252-317 | for all token lists and trees, the parser returns the tree exactly when the or/and/atom grammar derives the list with it; so it is sound, complete and unambiguous |
| Condition.ReparsesPrinted | crates/effero-safety-kernel/src/condition.rs:252-317 | every tree printed with parentheses only where needed parses to that tree |
| Condition.PrintedIsShortest | crates/effero-safety-kernel/src/condition.rs:252-317 | no token list with that tree is shorter than the printed one |
| Condition.Parser.ParseWhole | crates/effero-safety-kernel/src/condition.rs:252-261 | terminates on all token lists and computes the reference parse: empty lists and trailing tokens are errors |
| Condition.Parser.ParseDisjunction | crates/effero-safety-kernel/src/condition.rs:263-271 | the loop builds the left-associated disjunction and stops where the reference parser does |
| Condition.Parser.ParseConjunction | crates/effero-safety-kernel/src/condition.rs:273-281 | the same for conjunctions |
| Condition.Parser.ParsePrimary | crates/effero-safety-kernel/src/condition.rs:283-317 | the same for atoms, parentheses and comparisons |
| Condition.MonotoneExactly | crates/effero-safety-kernel/src/condition.rs:201-226 | every condition that holds for some facts holds for others exactly when each true fact stays true and each numeric fact keeps its value |
| Condition.FewerFactsDecideLess | crates/effero-safety-kernel/src/condition.rs:36-45 | taking facts away never makes a condition text true |
| Condition.Evaluate | crates/effero-safety-kernel/src/condition.rs:36-45 | the shortcut for a lone true, the parse and the evaluation, whose outcome `ConditionMeaning.DecidedByClauses` tells without them; every error decides false |
| ConditionMeaning.NameMeans | crates/effero-safety-kernel/src/condition.rs:204-208 | a lone name holds exactly when the fact is present and true |
| ConditionMeaning.ComparisonNeedsNumber | crates/effero-safety-kernel/src/condition.rs:209-213 | no comparison holds for a fact that is missing or no number |
| ConditionMeaning.ComparisonMeans | crates/effero-safety-kernel/src/condition.rs:209-222 | what each of the six operators says about a number, and that equality is up to 2^-52 |
| ConditionMeaning.ComparisonsAreMonotone | crates/effero-safety-kernel/src/condition.rs:209-222 | less stays true for smaller numbers and more for larger ones |
| ConditionMeaning.ParenthesesMeanNothing | crates/effero-safety-kernel/src/condition.rs:283-300 | a condition in parentheses holds exactly when it does without them |
| ConditionMeaning.OrMeansEither | crates/effero-safety-kernel/src/condition.rs:223-226 | two conditions joined by || hold exactly when one of them does |
| ConditionMeaning.AndMeansBoth | crates/effero-safety-kernel/src/condition.rs:223-226 | two conjunctions joined by && hold exactly when both do |
| ConditionMeaning.AndBindsTighter | crates/effero-safety-kernel/src/condition.rs:263-281 | && binds tighter than ||, on either side |
| ConditionMeaning.HoldsIffClauseTrue | crates/effero-safety-kernel/src/condition.rs:201-317 | a condition holds exactly when one of its clauses, read off its tokens, has only true literals |
| ConditionMeaning.DecidedByClauses | crates/effero-safety-kernel/src/condition.rs:36-45 | what is decided about a text is whether it has tokens one of whose clauses has only true literals |
| ConditionMeaning.WrittenIsDecided | crates/effero-safety-kernel/src/condition.rs:36-45 | so what is decided about a condition that is written down depends on its tokens and the facts alone |
| Quintic.BoundaryConditions | src/effero/skills/robotics/trajectory.py:60-105 | for every positive duration and all six boundary values, position, velocity and acceleration at both ends are the ones asked for |
| QuinticLimits.StaysBetween | src/effero/skills/robotics/trajectory.py:74-84 | a rest-to-rest segment stays between its ends at all times |
| QuinticLimits.SpeedBound | src/effero/skills/robotics/trajectory.py:86-95 | its speed is at most 1.875 |dq| / T |
| QuinticLimits.AccelerationBound | src/effero/skills/robotics/trajectory.py:97-105 | its squared acceleration is at most (100/3) dq^2 / T^4 |
| QuinticLimits.JerkBound | src/effero/skills/robotics/trajectory.py:107-110 | its jerk is at most 60 |dq| / T^3 |
| QuinticLimits.SpeedLimitExact | src/effero/skills/robotics/trajectory.py:86-95 | a speed limit holds at all times exactly when 1.875 |dq| is within limit times T, so the bound is reached |
| QuinticLimits.AccelerationLimitExact | src/effero/skills/robotics/trajectory.py:97-105 | an acceleration limit holds at all times exactly when (10/sqrt 3) |dq| is within limit times T^2 |
| QuinticLimits.JerkLimitExact | src/effero/skills/robotics/trajectory.py:107-110 | a jerk limit holds at all times exactly when 60 |dq| is within limit times T^3 |
| TrajectoryPlanner.TwoWaypointsKeepSpeedLimit | src/effero/skills/robotics/trajectory.py:257-274 | with automatic durations, a two-waypoint plan keeps every positive velocity limit at all times, although the duration is rounded to four decimals |
| TrajectoryPlanner.SegmentTimeCovers | src/effero/skills/robotics/trajectory.py:258-274 | the duration before rounding covers the velocity, acceleration and jerk time of every joint |
| TrajectoryPlanner.SegmentMeetsWaypoints | src/effero/skills/robotics/trajectory.py:300-318 | each segment starts and ends with the position, velocity and acceleration chosen for its waypoints |
| TrajectoryPlanner.SegmentsJoin | src/effero/skills/robotics/trajectory.py:276-318 | adjacent segments agree in position, velocity and acceleration at every via-point |
| TrajectoryPlanner.PassesThroughWaypoint | src/effero/skills/robotics/trajectory.py:300-318 | a segment passes through its two waypoints in every joint |
| TrajectoryPlanner.StartTimesGrow | src/effero/skills/robotics/trajectory.py:306-318 | segments do not overlap in time |
| TrajectoryPlanner.MultiSegmentTrajectoryPlanner.Duration | src/effero/skills/robotics/trajectory.py:260-273 | the maximum of 0.1 and the three times of every joint |
| TrajectoryPlanner.MultiSegmentTrajectoryPlanner.Durations | src/effero/skills/robotics/trajectory.py:252-274 | given durations are raised to 0.01, missing ones computed and rounded; a list of the wrong length is refused |
| TrajectoryPlanner.MultiSegmentTrajectoryPlanner.Velocities | src/effero/skills/robotics/trajectory.py:276-287 | zero at both ends, the clamped central difference in between, and nowhere more than the velocity limit |
| TrajectoryPlanner.ViaVelocityIsModest | src/effero/skills/robotics/trajectory.py:276-287 | the velocity at a waypoint is within the limit of its joint, and zero at both ends |
| TrajectoryPlanner.ViaVelocityFollowsPath | src/effero/skills/robotics/trajectory.py:276-287 | at a via-point a joint never moves against the direction from the waypoint before to the one after, stands still when these are equal, and has their mean speed unless the limit cuts it |
| TrajectoryPlanner.ViaAccelerationIsModest | src/effero/skills/robotics/trajectory.py:289-298 | the acceleration at a waypoint is within the limit of its joint, and zero at both ends |
| TrajectoryPlanner.ViaAccelerationFollowsVelocities | src/effero/skills/robotics/trajectory.py:289-298 | the acceleration at a via-point has the direction of the change of velocity, and is twice the mean change unless the limit cuts it |
| TrajectoryPlanner.MultiSegmentTrajectoryPlanner.Accelerations | src/effero/skills/robotics/trajectory.py:289-298 | zero at both ends, and the clamped backward difference of the velocities in between |
| TrajectoryPlanner.MultiSegmentTrajectoryPlanner.Construct | src/effero/skills/robotics/trajectory.py:300-320 | segments, start times and total duration |
| TrajectoryPlanner.MultiSegmentTrajectoryPlanner.Plan | src/effero/skills/robotics/trajectory.py:230-321 | which inputs are refused, what is planned otherwise, with the given durations raised to 0.01 or automatic ones, and what a refused call leaves behind, which includes the new waypoints when only the durations are wrong |
| TrajectoryPlanner.MultiSegmentTrajectoryPlanner.Evaluate | src/effero/skills/robotics/trajectory.py:323-341 | the segment found is the one whose time span holds the clamped time, and the sample is the state of that segment; `PlannedSamples` says what such samples are |
| TrajectoryPlanner.OneIsActive | src/effero/skills/robotics/trajectory.py:327-334 | no two segments span one time |
| TrajectoryPlanner.MultiSegmentTrajectoryPlanner.Samples | src/effero/skills/robotics/trajectory.py:343-355 | samples are taken at multiples of the interval cut off at the total duration, each is the state of the active segment at its time, and the last one is at the end |
| TrajectoryPlanner.StepTimesGrow | src/effero/skills/robotics/trajectory.py:352-353 | samples start at zero, never go back, and are at most the interval apart |
| TrajectoryPlanner.LastStep | src/effero/skills/robotics/trajectory.py:350-353 | the number of steps reaches the end of the trajectory |
| PlannedSamples.SampleAtWaypoint | src/effero/skills/robotics/trajectory.py:323-341 | a sample at the time of a waypoint has its positions, and the velocities and accelerations chosen for it |
| PlannedSamples.TwoWaypointSamples | src/effero/skills/robotics/trajectory.py:323-341 | in a two-waypoint plan with automatic duration, every sample keeps the positive velocity limits, and every joint is between its two positions |
| PlannedSamples.SamplesGrow | src/effero/skills/robotics/trajectory.py:86-110 | between three samples of a segment at equal distances, velocities grow by what the accelerations say, and accelerations by what the jerks say |
| PlannedSamples.SamplesMove | src/effero/skills/robotics/trajectory.py:74-95 | between five such samples, positions grow by what the velocities say |
| SegmentSpeed.AnySpeedBound | src/effero/skills/robotics/trajectory.py:60-95 | a segment between any ends is at no time faster than 1.875 |dq| / T, the two end velocities and a quarter of T times the two end accelerations allow together |
| SegmentSpeed.HalfwayVelocity | src/effero/skills/robotics/trajectory.py:60-95 | the velocity in the middle of a segment, exactly: 1.875 dq / T less 0.4375 of each end velocity and with 1/32 of T of the difference of the end accelerations |
| PlanLimits.AccelerationKeptExactly | src/effero/skills/robotics/trajectory.py:257-274 | in a two-waypoint plan with automatic duration d, an acceleration limit holds at all times exactly when (10/sqrt 3) |dq| is within limit times d^2, for every joint and all limits of the planner |
| PlanLimits.JerkKeptExactly | src/effero/skills/robotics/trajectory.py:257-274 | in such a plan a jerk limit holds at all times exactly when 60 |dq| is within limit times d^3 |
| PlanLimits.KeptUnlessRoundedDown | src/effero/skills/robotics/trajectory.py:257-274 | such a plan keeps its positive acceleration and jerk limits at all times when its duration is not rounded down |
| PlanLimits.RoundingBreaksAccelerationLimit | src/effero/skills/robotics/trajectory.py:257-274 | with planner limits 10, 1 and 1000, the planned duration of the displacement 0.001733 is rounded down to 0.1 and the acceleration exceeds its limit |
| PlanLimits.RoundingBreaksJerkLimit | src/effero/skills/robotics/trajectory.py:207-274 | with the default limits, a displacement for which the planned duration is rounded from 0.19004 to 0.19 and the jerk exceeds its limit of 15 |
| Turns.KeptExactly | src/effero/skills/robotics/trajectory.py:86-110 | a function with a derivative of at most third degree keeps a limit over a span of time exactly when it keeps it at both ends and wherever the derivative changes its sign |
| Turns.AreaUnder | src/effero/skills/robotics/trajectory.py:86-110 | such a function grows by what the derivative at both ends and in the middle says, so it rises where the derivative is not negative |
| Turns.QuadraticTurns | src/effero/skills/robotics/trajectory.py:86-110 | a derivative of at most second degree changes its sign at the zeros that the square root gives and nowhere else |
| Turns.CubicTurns | src/effero/skills/robotics/trajectory.py:86-110 | one of third degree at any one zero and the zeros of what is left without it |
| ViaLimits.SpeedKeptExactly | src/effero/skills/robotics/trajectory.py:86-95 | any segment keeps a velocity limit at all times exactly when it does at both ends and where the acceleration is zero |
| ViaLimits.SurgeKeptExactly | src/effero/skills/robotics/trajectory.py:97-105 | and an acceleration limit exactly when it does at both ends and where the jerk is zero, times that the square root gives |
| ViaLimits.JoltKeptExactly | src/effero/skills/robotics/trajectory.py:107-110 | and a jerk limit exactly when it does at both ends and at the turn of the jerk, a time that a division gives |
| ViaLimits.ViaSpeedKeptExactly | src/effero/skills/robotics/trajectory.py:208-318 | between any two waypoints of any plan the velocity limit is kept at all times exactly when it is not negative and kept where the speed turns; at the waypoints it then always is |
| ViaLimits.ViaSurgeKeptExactly | src/effero/skills/robotics/trajectory.py:208-318 | likewise the acceleration limit, exactly when it is not negative and kept where the acceleration turns |
| ViaLimits.ViaJoltKeptExactly | src/effero/skills/robotics/trajectory.py:208-318 | the jerk limit, exactly when it is kept where the jerk turns and at the two waypoints |
| ViaLimits.ViaSpeedFromWaypoints | src/effero/skills/robotics/trajectory.py:208-318 | what the positions, velocities and accelerations chosen for two waypoints say about the velocity limit between them: a duration that is long enough for them keeps it, it is kept only if it is kept halfway, and when both velocities are equal and both accelerations zero an inequality at the start and one halfway decide |
| ViaLimits.EqualEndsKeptExactly | src/effero/skills/robotics/trajectory.py:60-95 | the last of these for any segment: with equal velocities u and no accelerations at its ends, a limit is kept at all times exactly when |u| is within it and |1.875 dq - 0.875 u T| is within limit times T |
| ViaLimits.ViaSpeedBound | src/effero/skills/robotics/trajectory.py:276-318 | between any two waypoints of any plan, the speed is at most 1.875 |dq| / T, twice the velocity limit and half of T times the acceleration limit together |
| ViaLimits.ViaPointsBreakSpeedLimit | src/effero/skills/robotics/trajectory.py:208-318 | with the default limits and automatic durations, a joint sent through 0, 10, 9 and 19 moves faster than 1.6 in the middle of its second segment, where its limit is 1.5 |
| ViaLimits.ViaPointsBreakOtherLimits | src/effero/skills/robotics/trajectory.py:208-318 | there it also exceeds the acceleration limit of 3, by more than 1, and the jerk limit of 15, by more than 10 |
| Auction.RankDescends | src/effero/core/fleet/auction.py:321-346 | a ranking descends in score |
| Auction.RankIsStable | src/effero/core/fleet/auction.py:321-346 | bids of one score stay in their order |
| Auction.WinnerIsEarliestBest | src/effero/core/fleet/auction.py:433-543 | there is a winner exactly when some bid that opens has a positive score, and it is the earliest one of the highest score, with its commitment opened |
| Auction.ClosingPartitions | src/effero/core/fleet/auction.py:433-543 | with distinct identifiers, each bid gets exactly one answer: the award or one rejection |
| Auction.AnswersCount | src/effero/core/fleet/auction.py:433-543 | for any identifier, the rejections are as many as the bids but those of the winner |
| Auction.RejectionsAreJust | src/effero/core/fleet/auction.py:454-540 | every rejection is addressed to a bid and gives the reason that is true of it: never revealed, not as committed, below the threshold, or a lower score than the winner, with both scores |
| Auction.PutKeepsDistinct | src/effero/core/fleet/auction.py:379-398 | submitting a bid again replaces it, so identifiers stay distinct |
| Auction.NextBestIsHighest | src/effero/core/fleet/auction.py:545-554 | the runner-up has the highest score among the ranked bids of nodes that are not excluded |
| Auction.SealedBidAuction.CreateAuction | src/effero/core/fleet/auction.py:369-373 | a fresh auction replaces whatever the task had |
| Auction.SealedBidAuction.SubmitBid | src/effero/core/fleet/auction.py:379-398 | accepted exactly while the auction is open and its window runs; stored in place, sealed if the auction is and there is no commitment |
| Auction.SealedBidAuction.RevealBid | src/effero/core/fleet/auction.py:400-431 | the revealed values are stored in any case, and the bid is unsealed exactly when the commitment fits |
| Auction.CommittedBidOpens | src/effero/core/fleet/auction.py:400-431 | a bid that was submitted with other values and a commitment to its own opens when its own are revealed |
| Auction.SealedBidAuction.CloseAuction | src/effero/core/fleet/auction.py:433-543 | an award exactly when the decision has a winner, with its node, bid and score, and the rejections of the decision; the auction is closed with them, bids only lose their seals, and other auctions stay; an awarded auction returns the same result again and does not change |
| Auction.SealedBidAuction.OpenBids | src/effero/core/fleet/auction.py:454-482 | the loop splits the bids into those that open and the rejections of the others |
| Auction.SealedBidAuction.Judge | src/effero/core/fleet/auction.py:454-540 | opening, ranking, choosing and rejecting give the reference decision |
| Auction.SealedBidAuction.GetRunnerUp | src/effero/core/fleet/auction.py:545-554 | the first ranked bid of a node not excluded that scores above zero |
| Leases.LeaseManager.CreateLease | src/effero/core/fleet/auction.py:158-180 | one lease per task, which expires when more than its duration has passed; a duration that is not positive counts as none |
| Leases.LeaseManager.RenewLease | src/effero/core/fleet/auction.py:182-202 | renewed exactly for the holder of a lease that has not expired, and then it runs from now; nothing changes otherwise |
| Leases.LeaseManager.CheckExpiredLeases | src/effero/core/fleet/auction.py:212-215 | exactly the expired leases, each once |
| Fleet.SweepEffect | src/effero/core/fleet/auction.py:570-682 | a whole sweep told from the state before it: each expired task gets a fresh lease on its heir, or a new auction without bids; other leases and auctions are untouched; a node is up afterwards if it was and held no expired lease |
| Fleet.HeirLeads | src/effero/core/fleet/auction.py:580-614 | the heir of a task has the best ranked bid of a node that has not failed, and its node is up; there is none when nobody is left or the node of that bid is not up |
| Fleet.SweptExactly | src/effero/core/fleet/auction.py:570-682 | after a sweep at a time no lease is expired at it, exactly when no lease was handed over with a negative duration |
| Fleet.NegativeDefaultStaysExpired | src/effero/core/fleet/auction.py:570-682 | a state in which that happens: with a default duration of minus one the lease of the heir is expired when the sweep ends |
| Fleet.HeirFailsExactly | src/effero/core/fleet/auction.py:580-591 | a node that took over a task is excluded when the sweep ends exactly when a lease of its own came later in the sweep |
| Fleet.PromotedNodeGoesDown | src/effero/core/fleet/auction.py:580-591 | two tasks and two nodes for which that happens |
| Fleet.SweepKeepsSound | src/effero/core/fleet/auction.py:570-682 | after any sweep the log holds no promotion of a node that had failed by then |
| Fleet.StepKeepsSound | src/effero/core/fleet/auction.py:580-682 | one expired lease keeps that, along with keyed leases and distinct bids |
| Fleet.SweepKeepsBalance | src/effero/core/fleet/auction.py:580-614 | a sweep keeps the count of active tasks equal to the leases held, for every registered node |
| Fleet.FleetCoordinator.Failover | src/effero/core/fleet/auction.py:580-681 | marking, reclaiming, promoting and re-auctioning make one step of the sweep |
| Fleet.FleetCoordinator.CheckLeasesAndFailover | src/effero/core/fleet/auction.py:570-682 | the loop sweeps exactly the expired leases and reports their tasks in order |
| Fleet.AwardBalanceExactly | src/effero/core/fleet/coordinator.py:165-174 | an award keeps active tasks and leases in balance exactly when no registered node holds a lease for the task already |
| Fleet.SecondAwardCountsTwice | src/effero/core/fleet/coordinator.py:165-174 | a task awarded twice to one node counts as two |
| Fleet.RegistrationBalanceExactly | src/effero/core/fleet/coordinator.py:84-86 | registering a node again keeps the balance exactly when it holds no lease |
| Fleet.HeartbeatKeepsBalance | src/effero/core/fleet/coordinator.py:186-194 | a heartbeat keeps the balance, whether it renews the lease or not |
| Fleet.FleetCoordinator.RegisterNode | src/effero/core/fleet/coordinator.py:62-86 | the node starts with no active tasks and healthy; what that does to the balance |
| Fleet.FleetCoordinator.EvaluateAndAward | src/effero/core/fleet/coordinator.py:144-176 | no award for an unknown task, the old award for an auction that has one, and otherwise one exactly when the decision on the bids has a winner, with its node, bid and score; the auction is closed with it; the award becomes a lease and one more active task, also when it is an old one; what that does to the balance |
| Fleet.FleetCoordinator.RenewLease | src/effero/core/fleet/coordinator.py:178-194 | the heartbeat of the node is taken even when the lease is not renewed |
| Episodic.LinesAreExact | src/effero/core/memory/episodic.py:61-62 | splitting at newlines gives lines without newlines that join to the text |
| Episodic.FirstLineSuffices | src/effero/core/memory/episodic.py:59-62 | a chunk in front of a text is split right with only the first line of that text, so a line cut by a chunk boundary is put together |
| Episodic.RecordCompletesLastLine | src/effero/core/memory/episodic.py:26-34 | a recorded line completes the last line of the file and leaves all other lines alone, a torn one included |
| Episodic.RecordedIsLoaded | src/effero/core/memory/episodic.py:26-83 | entries that are recorded one after another are loaded as the last ones, in the order of recording |
| Episodic.HistoryIsNewest | src/effero/core/memory/episodic.py:38-83 | as many entries as the limit allows and there are, and they are the newest |
| Episodic.EpisodicMemory.Record | src/effero/core/memory/episodic.py:26-36 | appends the line and a newline |
| Episodic.EpisodicMemory.LoadHistory | src/effero/core/memory/episodic.py:38-83 | for every content, every chunk size from 1 and every limit, the last entries of a forward scan, in file order |
| Episodic.EpisodicMemory.ReadBackwards | src/effero/core/memory/episodic.py:54-77 | the chunk loop collects the newest entries first and stops at the limit |
| Episodic.EpisodicMemory.TakeLines | src/effero/core/memory/episodic.py:64-70 | the lines of one chunk, last line first, up to the limit |
| Base38.DecodeUndoesEncode | src/effero/adapters/mqtt_matter/matter.py:23-100 | decoding undoes encoding for all bytes; section 5.1.3.1 of the Matter specification |
| Base38.EncodeUndoesDecodeExactly | src/effero/adapters/mqtt_matter/matter.py:23-100 | for a text that decodes, encoding gives it back exactly when no chunk stands for more than its bytes can hold |
| Base38.FullStopsAreNotCanonical | src/effero/adapters/mqtt_matter/matter.py:23-100 | a text of five full stops decodes and does not come back |
| Base38.EncodeBytes | src/effero/adapters/mqtt_matter/matter.py:66-100 | the loops give the reference text |
| Base38.DecodeText | src/effero/adapters/mqtt_matter/matter.py:23-63 | the loops give the reference bytes, or the first error: a chunk of one or three characters, or an unknown character |
| Matter.FieldsOfPacked | src/effero/adapters/mqtt_matter/matter.py:137-181 | the fields of a QR payload come apart at the bit positions at which they were put together |
| Matter.QrRoundTrip | src/effero/adapters/mqtt_matter/matter.py:115-181 | reading a printed QR code gives every payload back with each field cut to its width, and vendor or product 0 read as none |
| Matter.QrKeepsAllExactly | src/effero/adapters/mqtt_matter/matter.py:115-181 | nothing is lost exactly when every field is in range and no identifier is 0 |
| Matter.Unpack | src/effero/adapters/mqtt_matter/matter.py:137-158 | taking the fields off the low end one after another finds each at its bit position |
| Matter.ParseQr | src/effero/adapters/mqtt_matter/matter.py:115-168 | prefix, text, length and fields are checked and read as in the reference |
| Matter.ManualRoundTripExactly | src/effero/adapters/mqtt_matter/matter.py:183-260 | a printed manual code reads back to the passcode, the top four bits of the discriminator and the identifiers, exactly when both identifiers are not given or have five digits at most |
| Matter.CheckDigitIsNotRead | src/effero/adapters/mqtt_matter/matter.py:199-235 | the last digit of a code does not influence what is read |
| Matter.ParseReadsEither | src/effero/adapters/mqtt_matter/matter.py:262-268 | a text with the prefix is read as a QR code and every other as a manual code, white space around it or not |
| MatterCodes.ManualCodeIsChecked | src/effero/adapters/mqtt_matter/matter.py:235-259 | the last digit of a printed manual code is the sum of the digits at the other positions modulo ten |
| MatterCodes.ManualCodeInPlace | src/effero/adapters/mqtt_matter/matter.py:235-259 | which digits of a manual code hold which bits of discriminator and passcode |
| MatterCodes.ExampleQrCode | src/effero/adapters/mqtt_matter/matter.py:170-181 | the payload with passcode 20202021, discriminator 3840, vendor 0xFFF1 and product 0x8000 is MT:Y.K9042C00KA0648G00 |
| MatterCodes.ExampleManualCode | src/effero/adapters/mqtt_matter/matter.py:235-259 | and as an eleven-digit code 34970112333 |
| Rounding.TiesToEven | src/effero/skills/robotics/grid_map.py:48-52 | halfway between two integers, the even one is taken |

## Left out

- Floating-point rounding, NaN and infinities: reals are used, and only the explicit calls of `round` are modelled.
- Sockets, serial ports, TLS, tasks, reconnecting, keep-alive, logging, callbacks and the dispatch of a message to its subscribers beyond the order of messages.
- AStar.AStarPlanner.HeapPop: the heap array is not modelled, only that the least entry comes out and the others stay; `Search` holds for every such queue.
- MqttClient.MqttAdapter.HandlePacket: the futures of CONNACK, SUBACK and UNSUBACK are not modelled, nor are subscribing, publishing with QoS 0 or without a connection, and sending again after a reconnect.
- MqttProtocol.WireRoundTrip: a string is any sequence of bytes that fits its length field; that it must be valid UTF-8 is not modelled.
- MqttProtocol.DecodePacket: for the same reason a string that is not valid UTF-8 is no error.
- MqttProtocol.DecodeTopics: likewise for topics.
- MqttProtocol.DecodeFilters: likewise for filters.
- PacketStream.ChunkingIrrelevant: the special case of streams without a refused packet, which also fixes the packets to those of draining the whole; `ChunkingIrrelevantExactly` covers every stream.
- PacketStream.Reader.Receive: the loop without its handlers; the exception of a handler that cannot send its answer, which ends the loop, is in `MqttSession.Session.Receive`.
- MqttReader.PacketsArrive: likewise without the handlers; `MqttSession.PacketsAreServed` has them.
- MqttSession.Session.Run: the chunks are those read before the end of the stream, and the client is not told to disconnect meanwhile.
- SerialFraming.CorruptedFrameRejected: covers the bytes under the checksum but the length field, since a changed length moves the end of the frame.
- Ros2Messages.JointStateRoundTrip: messages in range have text lengths and counts below 2^32 and 32-bit times; outside that range the program raises an exception, and UTF-8 errors are not modelled either.
- ActuatorCommand, Vector3 and Twist messages of the ROS 2 bridge, and the 8-bit CDR values: only easier cases of the same alignment argument.
- Modbus request and response builders, and the Dynamixel builders on top of `build_instruction_packet`: concatenations.
- ConditionLexer.Tokenize: letters and digits are the ASCII ones; white space is that of Unicode, as in the program.
- Condition.Evaluate: letters and digits are the ASCII ones, and numbers are reals, so a literal that overflows and comparisons with NaN are not modelled.
- TrajectoryPlanner.MultiSegmentTrajectoryPlanner.Plan: limits given as lists must cover all joints; the exception for a short list is not modelled.
- TrajectoryPlanner.TwoWaypointsKeepSpeedLimit: for two waypoints, because with via-points it is false, as `ViaLimits.ViaPointsBreakSpeedLimit` shows; `ViaLimits.ViaSpeedKeptExactly` says exactly when it is kept there.
- ViaLimits.ViaSpeedBound: a bound that may exceed the limit; the exact condition is that of `ViaSpeedKeptExactly`.
- ViaLimits.ViaSpeedKeptExactly: that every cubic has a zero is not proved; a zero is given, like a square root.
- `MinimumJerkTrajectory.sample`, the duration choice of the arm controller: not used by the planner.
- Auction.WinnerIsEarliestBest: the score is an arbitrary function of a bid; the weights of `BidScorer.score_bid` are not modelled.
- Auction.SealedBidAuction.RevealBid: bids are values, so a bid revealed after closing does not change in the ranking, where the program shares the object; only its node and score are read from there.
- Fleet.FleetCoordinator.RegisterNode: the modality is given; inferring it from the capabilities is not modelled.
- Fleet.FleetCoordinator.EvaluateAndAward: the skills, load and modality of the nodes enter through that score only.
- Leases.LeaseManager.CheckExpiredLeases: the order of the expired leases is any order, so what is proved of a sweep holds for the insertion order of the program too.
- Node unregistration, `select_best_node`, `delegate` and the shared facts of the coordinator.
- Episodic.EpisodicMemory.LoadHistory: reading errors of the file, and exceptions of the JSON parser other than a decoding error, after which the program returns the entries newest first, are not modelled.
- Matter.ManualRoundTripExactly: only ASCII digits count as digits.
- Matter commissioning, PASE and CASE, and the cluster classes.
- Vision, audio, language models, desktop automation, localisation, pursuit and arm kinematics.
