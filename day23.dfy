/**
 * Day 23 (Amphipod): the burrow, its legal moves, and the memoised
 * cost search over burrow states.
 *
 * A burrow has an 11-cell hallway and four rooms of equal depth (2 or 4).
 * Slot 0 of a room is the one next to the hallway. A move swaps a token
 * with an empty cell, so the multiset of tokens never changes.
 */
module Amphipods {
  import opened Options

  // ---------------------------------------------------------------------
  // Token types and their tables
  // ---------------------------------------------------------------------

  datatype Amphipod = A | B | C | D

  /** The home room of a token type. */
  function Room(t: Amphipod): (r: nat)
    ensures r < 4
  {
    match t
    case A => 0
    case B => 1
    case C => 2
    case D => 3
  }

  /** The token type whose home is `room`; the inverse of `Room`. */
  function FromRoom(room: nat): (t: Amphipod)
    requires room < 4
    ensures Room(t) == room
  {
    if room == 0 then A else if room == 1 then B else if room == 2 then C else D
  }

  lemma FromRoomOfRoom(t: Amphipod)
    ensures FromRoom(Room(t)) == t
  {
  }

  function Pow10(n: nat): (p: nat)
    ensures p >= 1
  {
    if n == 0 then 1 else 10 * Pow10(n - 1)
  }

  /** Energy spent per step: 1, 10, 100, 1000, i.e. ten to the home room. */
  function Energy(t: Amphipod): (e: nat)
    ensures e == Pow10(Room(t))
  {
    match t
    case A => 1
    case B => 10
    case C => 100
    case D => 1000
  }

  /** The hallway cell above the token's home room. */
  function Doorway(t: Amphipod): (d: nat)
    ensures d == (Room(t) + 1) * 2
  {
    match t
    case A => 2
    case B => 4
    case C => 6
    case D => 8
  }

  /** Energy strictly increases with the room index. */
  lemma {:induction false} EnergyIncreases(s: Amphipod, t: Amphipod)
    requires Room(s) < Room(t)
    ensures Energy(s) < Energy(t)
  {
    Pow10Increases(Room(s), Room(t));
  }

  lemma {:induction false} Pow10Increases(m: nat, n: nat)
    requires m < n
    ensures Pow10(m) < Pow10(n)
  {
    if m + 1 < n {
      Pow10Increases(m, n - 1);
    }
  }

  // ---------------------------------------------------------------------
  // Burrow states
  // ---------------------------------------------------------------------

  type Cell = Option<Amphipod>

  datatype Burrow = Burrow(hallway: seq<Cell>, rooms: seq<seq<Cell>>)

  const HallwayLength: nat := 11

  /** An 11-cell hallway and four rooms of one common depth, 2 or 4. */
  ghost predicate WellShaped(b: Burrow) {
    && |b.hallway| == HallwayLength
    && |b.rooms| == 4
    && (|b.rooms[0]| == 2 || |b.rooms[0]| == 4)
    && forall r :: 0 <= r < 4 ==> |b.rooms[r]| == |b.rooms[0]|
  }

  function Depth(b: Burrow): nat
    requires |b.rooms| == 4
  {
    |b.rooms[0]|
  }

  function Indicator(c: bool): nat { if c then 1 else 0 }

  /** How many cells of a row hold type `t`. */
  function Count(s: seq<Cell>, t: Amphipod): nat {
    if s == [] then 0 else Indicator(s[0] == Some(t)) + Count(s[1..], t)
  }

  /** How many tokens of type `t` the whole burrow holds. */
  function Tokens(b: Burrow, t: Amphipod): nat
    requires |b.rooms| == 4
  {
    Count(b.hallway, t) + Count(b.rooms[0], t) + Count(b.rooms[1], t) + Count(b.rooms[2], t) + Count(b.rooms[3], t)
  }

  /**
   * The invariant the search keeps: the shape, and exactly `Depth` tokens
   * of each type (conservation).
   */
  ghost predicate Valid(b: Burrow) {
    WellShaped(b) && forall t: Amphipod :: Tokens(b, t) == Depth(b)
  }

  /** `Burrow::from_2` and `Burrow::from_4`: an empty hallway and full rooms. */
  function FromRooms(rooms: seq<seq<Amphipod>>): (b: Burrow)
    requires |rooms| == 4
    requires |rooms[0]| == 2 || |rooms[0]| == 4
    requires forall r :: 0 <= r < 4 ==> |rooms[r]| == |rooms[0]|
    ensures WellShaped(b) && Depth(b) == |rooms[0]|
    ensures forall p :: 0 <= p < HallwayLength ==> b.hallway[p].None?
    ensures forall r, k :: 0 <= r < 4 && 0 <= k < Depth(b) ==> b.rooms[r][k] == Some(rooms[r][k])
  {
    Burrow(seq(HallwayLength, _ => None),
           seq(4, r requires 0 <= r < 4 => seq(|rooms[0]|, k requires 0 <= k < |rooms[0]| => Some(rooms[r][k]))))
  }

  /** The solved burrow of a given depth (`DONE_2` / `DONE_4`). */
  function Finished(depth: nat): (b: Burrow)
    requires depth == 2 || depth == 4
    ensures WellShaped(b) && Depth(b) == depth
  {
    FromRooms(seq(4, r requires 0 <= r < 4 => seq(depth, _ => FromRoom(r))))
  }

  // ---------------------------------------------------------------------
  // Room access (`RoomSize::get_insert_idx` / `get_remove_idx`)
  // ---------------------------------------------------------------------

  predicate HasEmpty(room: seq<Cell>) {
    exists k :: 0 <= k < |room| && room[k].None?
  }

  predicate HasToken(room: seq<Cell>) {
    exists k :: 0 <= k < |room| && room[k].Some?
  }

  /**
   * The slot a token enters: the deepest empty slot. The source searches
   * from the back and reaches `unreachable!()` on a full room.
   */
  function InsertIdx(room: seq<Cell>): (i: nat)
    requires HasEmpty(room)
    ensures i < |room| && room[i].None?
    ensures forall k :: i < k < |room| ==> room[k].Some?
  {
    if room[|room| - 1].None? then |room| - 1
    else
      assert HasEmpty(room[..|room| - 1]) by {
        var k :| 0 <= k < |room| && room[k].None?;
        assert room[..|room| - 1][k] == room[k];
      }
      InsertIdx(room[..|room| - 1])
  }

  /**
   * The slot a token leaves from: the shallowest occupied slot. The source
   * searches from the front and reaches `unreachable!()` on an empty room.
   */
  function RemoveIdx(room: seq<Cell>): (i: nat)
    requires HasToken(room)
    ensures i < |room| && room[i].Some?
    ensures forall k :: 0 <= k < i ==> room[k].None?
  {
    if room[0].Some? then 0
    else
      assert HasToken(room[1..]) by {
        var k :| 0 <= k < |room| && room[k].Some?;
        assert room[1..][k - 1] == room[k];
      }
      1 + RemoveIdx(room[1..])
  }

  function AbsDiff(a: nat, b: nat): nat {
    if a < b then b - a else a - b
  }

  // ---------------------------------------------------------------------
  // The two moves
  // ---------------------------------------------------------------------

  /**
   * `Burrow::hallway_move`: swap hallway cell `pos` with one slot of room
   * `roomId`. If the hallway cell holds a token it goes to the deepest
   * empty slot; otherwise the shallowest token comes out. Returns the new
   * burrow and the number of steps travelled.
   */
  function HallwayMove(b: Burrow, pos: nat, roomId: nat): (r: (Burrow, nat))
    requires WellShaped(b) && pos < HallwayLength && roomId < 4
    requires b.hallway[pos].Some? ==> HasEmpty(b.rooms[roomId])
    requires b.hallway[pos].None? ==> HasToken(b.rooms[roomId])
    ensures WellShaped(r.0) && Depth(r.0) == Depth(b)
  {
    var hallway := b.hallway[pos];
    var doorwayPos := (roomId + 1) * 2;
    var room := b.rooms[roomId];
    var roomPos := if hallway.Some? then InsertIdx(room) else RemoveIdx(room);
    var updated := Burrow(b.hallway[pos := room[roomPos]], b.rooms[roomId := room[roomPos := hallway]]);
    (updated, roomPos + 1 + Max(doorwayPos, pos) - Min(doorwayPos, pos))
  }

  function Max(a: nat, b: nat): nat { if a < b then b else a }
  function Min(a: nat, b: nat): nat { if a < b then a else b }

  /**
   * `Burrow::room_move`: the shallowest token of `src` goes straight to the
   * deepest empty slot of `dst`. The distance is the steps out of `src`, the
   * hallway steps between the two doorways, and the steps into `dst`.
   */
  function RoomMove(b: Burrow, src: nat, dst: nat): (r: (Burrow, nat))
    requires WellShaped(b) && src < 4 && dst < 4
    requires HasToken(b.rooms[src]) && HasEmpty(b.rooms[dst])
    ensures WellShaped(r.0) && Depth(r.0) == Depth(b)
  {
    var srcDoorway := (src + 1) * 2;
    var dstDoorway := (dst + 1) * 2;
    var hallwayDist := Max(srcDoorway, dstDoorway) - Min(srcDoorway, dstDoorway) + 1;
    var srcPos := RemoveIdx(b.rooms[src]);
    var dstPos := InsertIdx(b.rooms[dst]);
    var first := b.rooms[src := b.rooms[src][srcPos := b.rooms[dst][dstPos]]];
    var second := first[dst := first[dst][dstPos := b.rooms[src][srcPos]]];
    (Burrow(b.hallway, second), 1 + srcPos + dstPos + hallwayDist)
  }

  /**
   * What `hallway_move` does: it swaps hallway cell `pos` with the deepest
   * empty slot (a token goes in) or the shallowest token (one comes out),
   * and nothing else changes.
   */
  lemma HallwayMoveSwaps(b: Burrow, pos: nat, roomId: nat)
    requires WellShaped(b) && pos < HallwayLength && roomId < 4
    requires b.hallway[pos].Some? ==> HasEmpty(b.rooms[roomId])
    requires b.hallway[pos].None? ==> HasToken(b.rooms[roomId])
    ensures var r := HallwayMove(b, pos, roomId);
      var slot := if b.hallway[pos].Some? then InsertIdx(b.rooms[roomId]) else RemoveIdx(b.rooms[roomId]);
      && r.1 == slot + 1 + AbsDiff((roomId + 1) * 2, pos)
      && r.0.hallway[pos] == b.rooms[roomId][slot]
      && r.0.rooms[roomId][slot] == b.hallway[pos]
      && (forall p :: 0 <= p < HallwayLength && p != pos ==> r.0.hallway[p] == b.hallway[p])
      && (forall k :: 0 <= k < Depth(b) && k != slot ==> r.0.rooms[roomId][k] == b.rooms[roomId][k])
      && (forall n :: 0 <= n < 4 && n != roomId ==> r.0.rooms[n] == b.rooms[n])
  {
  }

  /**
   * What `room_move` does: the hallway is untouched, and for two different
   * rooms the shallowest token of `src` and the deepest empty slot of `dst`
   * trade places.
   */
  lemma RoomMoveSwaps(b: Burrow, src: nat, dst: nat)
    requires WellShaped(b) && src < 4 && dst < 4
    requires HasToken(b.rooms[src]) && HasEmpty(b.rooms[dst])
    ensures var r := RoomMove(b, src, dst);
      var p := RemoveIdx(b.rooms[src]); var q := InsertIdx(b.rooms[dst]);
      && r.1 == (p + 1) + AbsDiff((src + 1) * 2, (dst + 1) * 2) + (q + 1)
      && r.0.hallway == b.hallway
      && (src != dst ==>
            && r.0.rooms[src][p] == b.rooms[dst][q]
            && r.0.rooms[dst][q] == b.rooms[src][p]
            && (forall k :: 0 <= k < Depth(b) && k != p ==> r.0.rooms[src][k] == b.rooms[src][k])
            && (forall k :: 0 <= k < Depth(b) && k != q ==> r.0.rooms[dst][k] == b.rooms[dst][k])
            && (forall n :: 0 <= n < 4 && n != src && n != dst ==> r.0.rooms[n] == b.rooms[n]))
  {
  }

  // ---------------------------------------------------------------------
  // Predicates over a burrow
  // ---------------------------------------------------------------------

  /** `get_room_population`: the number of occupied slots. */
  function Population(room: seq<Cell>): (n: nat)
    ensures n <= |room|
    ensures n == 0 <==> forall k :: 0 <= k < |room| ==> room[k].None?
  {
    if room == [] then 0
    else
      assert forall k :: 1 <= k < |room| ==> room[k] == room[1..][k - 1];
      Indicator(room[0].Some?) + Population(room[1..])
  }

  /** A room holding nothing but its own type (or nothing at all). */
  predicate EnterableRoom(room: seq<Cell>, roomId: nat)
    requires roomId < 4
  {
    forall k :: 0 <= k < |room| ==> room[k].None? || room[k] == Some(FromRoom(roomId))
  }

  /** `is_room_enterable`. */
  predicate IsRoomEnterable(b: Burrow, roomId: nat)
    requires |b.rooms| == 4 && roomId < 4
  {
    EnterableRoom(b.rooms[roomId], roomId)
  }

  /** `is_room_done`: every slot holds the room's own type. */
  predicate IsRoomDone(b: Burrow, roomId: nat)
    requires |b.rooms| == 4 && roomId < 4
  {
    forall k :: 0 <= k < |b.rooms[roomId]| ==> b.rooms[roomId][k] == Some(FromRoom(roomId))
  }

  /** `is_burrow_done`: all four rooms are done. */
  predicate IsBurrowDone(b: Burrow)
    requires |b.rooms| == 4
  {
    forall r :: 0 <= r < 4 ==> IsRoomDone(b, r)
  }

  /** `is_path_clear`: no token anywhere between the two cells, both included. */
  predicate IsPathClear(b: Burrow, pos1: nat, pos2: nat)
    requires |b.hallway| == HallwayLength && pos1 < HallwayLength && pos2 < HallwayLength
  {
    forall p :: Min(pos1, pos2) <= p <= Max(pos1, pos2) ==> b.hallway[p].None?
  }

  /** The hallway cells a token may stop on: never a doorway (2, 4, 6, 8). */
  predicate IsStop(i: nat) {
    i == 0 || i == 1 || i == 3 || i == 5 || i == 7 || i == 9 || i == 10
  }

  predicate IsDoorwayCell(p: nat) {
    p == 2 || p == 4 || p == 6 || p == 8
  }

  const Stops: seq<nat> := [0, 1, 3, 5, 7, 9, 10]

  // ---------------------------------------------------------------------
  // The legal moves, one rule per move class
  // ---------------------------------------------------------------------

  /**
   * Hallway to room: the token at stop `i` enters its own room, which must be
   * enterable, and the hallway cells strictly between `i` and the doorway
   * must be clear. `HasEmpty` is the domain of `get_insert_idx`; under
   * `Valid` it always holds (lemma `EnterableHomeHasRoom`).
   */
  predicate HallwayToRoomOk(b: Burrow, i: nat)
    requires WellShaped(b)
  {
    && IsStop(i) && i < HallwayLength && b.hallway[i].Some?
    && var t := b.hallway[i].value;
    && IsRoomEnterable(b, Room(t))
    && (if i < Doorway(t) then IsPathClear(b, i + 1, Doorway(t)) else IsPathClear(b, i - 1, Doorway(t)))
    && HasEmpty(b.rooms[Room(t)])
  }

  function HallwayToRoom(b: Burrow, i: nat): (Burrow, nat)
    requires WellShaped(b) && HallwayToRoomOk(b, i)
  {
    var t := b.hallway[i].value;
    var (moved, dist) := HallwayMove(b, i, Room(t));
    (moved, dist * Energy(t))
  }

  /**
   * Room to hallway: the shallowest token of room `j`, which is neither done
   * nor enterable, comes out to the empty stop `i`; the cells from `i` to the
   * doorway, both included, must be clear.
   */
  predicate RoomToHallwayOk(b: Burrow, i: nat, j: nat)
    requires WellShaped(b)
  {
    && IsStop(i) && i < HallwayLength && b.hallway[i].None? && j < 4
    && !IsRoomDone(b, j) && !IsRoomEnterable(b, j)
    && IsPathClear(b, i, (j + 1) * 2)
  }

  lemma NotEnterableHasToken(b: Burrow, j: nat)
    requires WellShaped(b) && j < 4 && !IsRoomEnterable(b, j)
    ensures HasToken(b.rooms[j])
  {
  }

  function RoomToHallway(b: Burrow, i: nat, j: nat): (Burrow, nat)
    requires WellShaped(b) && RoomToHallwayOk(b, i, j)
  {
    NotEnterableHasToken(b, j);
    var (moved, dist) := HallwayMove(b, i, j);
    (moved, dist * Energy(moved.hallway[i].value))
  }

  /** The token that would leave room `n`. */
  function Leaver(b: Burrow, n: nat): Amphipod
    requires WellShaped(b) && n < 4 && HasToken(b.rooms[n])
  {
    b.rooms[n][RemoveIdx(b.rooms[n])].value
  }

  /**
   * Room to room: the shallowest token of a room that is neither done nor
   * enterable goes straight into its own room, which must be enterable, along
   * a clear hallway between the two doorways.
   */
  predicate RoomToRoomOk(b: Burrow, n: nat)
    requires WellShaped(b)
  {
    && n < 4 && !IsRoomDone(b, n) && !IsRoomEnterable(b, n) && Population(b.rooms[n]) > 0
    && HasToken(b.rooms[n])
    && var t := Leaver(b, n);
    && IsRoomEnterable(b, Room(t))
    && IsPathClear(b, (n + 1) * 2, Doorway(t))
    && HasEmpty(b.rooms[Room(t)])
  }

  function RoomToRoom(b: Burrow, n: nat): (Burrow, nat)
    requires WellShaped(b) && RoomToRoomOk(b, n)
  {
    var t := Leaver(b, n);
    var (moved, dist) := RoomMove(b, n, Room(t));
    (moved, dist * Energy(t))
  }

  /** A move `get_possible_moves` may produce: the rule table of the generator. */
  ghost predicate LegalMove(b: Burrow, m: (Burrow, nat))
    requires WellShaped(b)
  {
    || (exists i :: HallwayToRoomOk(b, i) && m == HallwayToRoom(b, i))
    || (exists i, j :: RoomToHallwayOk(b, i, j) && m == RoomToHallway(b, i, j))
    || (exists n :: RoomToRoomOk(b, n) && m == RoomToRoom(b, n))
  }

  // ---------------------------------------------------------------------
  // Token bookkeeping
  // ---------------------------------------------------------------------

  /** Overwriting one cell trades its token (if any) for the new one. */
  lemma {:induction false} CountUpdate(s: seq<Cell>, i: nat, v: Cell, t: Amphipod)
    requires i < |s|
    ensures Count(s[i := v], t) + Indicator(s[i] == Some(t)) == Count(s, t) + Indicator(v == Some(t))
  {
    if i == 0 {
      assert s[i := v][1..] == s[1..];
    } else {
      CountUpdate(s[1..], i - 1, v, t);
      assert s[i := v][1..] == s[1..][i - 1 := v];
    }
  }

  lemma {:induction false} PopulationUpdate(s: seq<Cell>, i: nat, v: Cell)
    requires i < |s|
    ensures Population(s[i := v]) + Indicator(s[i].Some?) == Population(s) + Indicator(v.Some?)
  {
    if i == 0 {
      assert s[i := v][1..] == s[1..];
    } else {
      PopulationUpdate(s[1..], i - 1, v);
      assert s[i := v][1..] == s[1..][i - 1 := v];
    }
  }

  lemma {:induction false} CountHas(s: seq<Cell>, i: nat)
    requires i < |s| && s[i].Some?
    ensures Count(s, s[i].value) >= 1
  {
    if i > 0 {
      CountHas(s[1..], i - 1);
    }
  }

  /** A row filled with one type holds that type as often as it is long. */
  lemma {:induction false} CountFull(s: seq<Cell>, t: Amphipod)
    requires forall k :: 0 <= k < |s| ==> s[k] == Some(t)
    ensures Count(s, t) == |s|
  {
    if s != [] {
      CountFull(s[1..], t);
    }
  }

  lemma {:induction false} CountNone(s: seq<Cell>, t: Amphipod)
    requires forall k :: 0 <= k < |s| ==> s[k] != Some(t)
    ensures Count(s, t) == 0
  {
    if s != [] {
      CountNone(s[1..], t);
    }
  }

  lemma TokensAtLeast(b: Burrow, r: nat, t: Amphipod)
    requires |b.rooms| == 4 && r < 4
    ensures Tokens(b, t) >= Count(b.hallway, t) + Count(b.rooms[r], t)
  {
    assert r == 0 || r == 1 || r == 2 || r == 3;
  }

  lemma TokensAtLeastTwo(b: Burrow, r: nat, n: nat, t: Amphipod)
    requires |b.rooms| == 4 && r < 4 && n < 4 && r != n
    ensures Tokens(b, t) >= Count(b.rooms[n], t) + Count(b.rooms[r], t)
  {
    assert r == 0 || r == 1 || r == 2 || r == 3;
    assert n == 0 || n == 1 || n == 2 || n == 3;
  }

  /**
   * `get_insert_idx` is only ever reached with a free slot: a token's own
   * room, if enterable, cannot be full while that token is in the hallway.
   */
  lemma EnterableHomeHasRoom(b: Burrow, i: nat)
    requires Valid(b) && i < HallwayLength && b.hallway[i].Some?
    requires IsRoomEnterable(b, Room(b.hallway[i].value))
    ensures HasEmpty(b.rooms[Room(b.hallway[i].value)])
  {
    var t := b.hallway[i].value;
    var room := b.rooms[Room(t)];
    if !HasEmpty(room) {
      CountFull(room, t);
      CountHas(b.hallway, i);
      TokensAtLeast(b, Room(t), t);
      assert false;
    }
  }

  /** The same for a token leaving another room towards its own. */
  lemma EnterableHomeHasRoomFrom(b: Burrow, n: nat)
    requires Valid(b) && n < 4 && HasToken(b.rooms[n]) && !IsRoomEnterable(b, n)
    requires IsRoomEnterable(b, Room(Leaver(b, n)))
    ensures HasEmpty(b.rooms[Room(Leaver(b, n))])
  {
    var t := Leaver(b, n);
    var room := b.rooms[Room(t)];
    if !HasEmpty(room) {
      CountFull(room, t);
      CountHas(b.rooms[n], RemoveIdx(b.rooms[n]));
      TokensAtLeastTwo(b, Room(t), n, t);
      assert false;
    }
  }

  // ---------------------------------------------------------------------
  // Progress: every move lowers a measure, so the search terminates
  // ---------------------------------------------------------------------

  /** Tokens that still have to move out of a room: none in an enterable room. */
  function Misplaced(b: Burrow, r: nat): nat
    requires |b.rooms| == 4 && r < 4
  {
    if IsRoomEnterable(b, r) then 0 else Population(b.rooms[r])
  }

  /**
   * Every hallway token has one move left, every token in a room that is
   * not enterable at most two.
   */
  function Measure(b: Burrow): nat {
    if |b.rooms| != 4 then 0
    else Population(b.hallway) + 2 * (Misplaced(b, 0) + Misplaced(b, 1) + Misplaced(b, 2) + Misplaced(b, 3))
  }

  lemma HallwayToRoomProgress(b: Burrow, i: nat)
    requires Valid(b) && HallwayToRoomOk(b, i)
    ensures Valid(HallwayToRoom(b, i).0)
    ensures Measure(HallwayToRoom(b, i).0) < Measure(b)
  {
    var t := b.hallway[i].value;
    var r := Room(t);
    var room := b.rooms[r];
    var slot := InsertIdx(room);
    var m := HallwayToRoom(b, i).0;
    assert m.hallway == b.hallway[i := room[slot]];
    assert m.rooms == b.rooms[r := room[slot := Some(t)]];
    PopulationUpdate(b.hallway, i, None);
    forall u: Amphipod ensures Tokens(m, u) == Tokens(b, u) {
      CountUpdate(b.hallway, i, None, u);
      CountUpdate(room, slot, Some(t), u);
    }
    FromRoomOfRoom(t);
    assert IsRoomEnterable(m, r);
  }

  lemma RoomToHallwayProgress(b: Burrow, i: nat, j: nat)
    requires Valid(b) && RoomToHallwayOk(b, i, j)
    ensures Valid(RoomToHallway(b, i, j).0)
    ensures Measure(RoomToHallway(b, i, j).0) < Measure(b)
  {
    var room := b.rooms[j];
    NotEnterableHasToken(b, j);
    var slot := RemoveIdx(room);
    var m := RoomToHallway(b, i, j).0;
    assert m.hallway == b.hallway[i := room[slot]];
    assert m.rooms == b.rooms[j := room[slot := None]];
    PopulationUpdate(b.hallway, i, room[slot]);
    PopulationUpdate(room, slot, None);
    forall u: Amphipod ensures Tokens(m, u) == Tokens(b, u) {
      CountUpdate(b.hallway, i, room[slot], u);
      CountUpdate(room, slot, None, u);
    }
    assert Misplaced(m, j) < Misplaced(b, j);
  }

  /** The burrow after a room-to-room move, written as two slot updates. */
  lemma RoomToRoomShape(b: Burrow, n: nat)
    requires WellShaped(b) && RoomToRoomOk(b, n)
    ensures var t := Leaver(b, n);
      var p := RemoveIdx(b.rooms[n]); var q := InsertIdx(b.rooms[Room(t)]);
      && n != Room(t)
      && RoomToRoom(b, n).0.hallway == b.hallway
      && RoomToRoom(b, n).0.rooms == b.rooms[n := b.rooms[n][p := None]][Room(t) := b.rooms[Room(t)][q := Some(t)]]
  {
  }

  lemma RoomToRoomProgress(b: Burrow, n: nat)
    requires Valid(b) && RoomToRoomOk(b, n)
    ensures Valid(RoomToRoom(b, n).0)
    ensures Measure(RoomToRoom(b, n).0) < Measure(b)
  {
    RoomToRoomShape(b, n);
    RoomToRoomTokens(b, n);
    RoomToRoomMeasure(b, n);
  }

  lemma RoomToRoomTokens(b: Burrow, n: nat)
    requires Valid(b) && RoomToRoomOk(b, n)
    ensures Valid(RoomToRoom(b, n).0)
  {
    RoomToRoomShape(b, n);
    var t := Leaver(b, n);
    var r := Room(t);
    var p := RemoveIdx(b.rooms[n]);
    var q := InsertIdx(b.rooms[r]);
    var m := RoomToRoom(b, n).0;
    forall u: Amphipod ensures Tokens(m, u) == Tokens(b, u) {
      CountUpdate(b.rooms[n], p, None, u);
      CountUpdate(b.rooms[r], q, Some(t), u);
      TokensTwoRooms(b, n, r, b.rooms[n][p := None], b.rooms[r][q := Some(t)], u);
    }
  }

  /** Replacing two different rooms changes the tokens by the change in those rooms. */
  lemma TokensTwoRooms(b: Burrow, n: nat, r: nat, x: seq<Cell>, y: seq<Cell>, u: Amphipod)
    requires |b.rooms| == 4 && n < 4 && r < 4 && n != r
    ensures Tokens(Burrow(b.hallway, b.rooms[n := x][r := y]), u) + Count(b.rooms[n], u) + Count(b.rooms[r], u)
            == Tokens(b, u) + Count(x, u) + Count(y, u)
  {
    var once := Burrow(b.hallway, b.rooms[n := x]);
    TokensOneRoom(b, n, x, u);
    TokensOneRoom(once, r, y, u);
    assert once.rooms[r] == b.rooms[r];
  }

  /** Replacing one room changes the tokens by the change in that room. */
  lemma TokensOneRoom(b: Burrow, n: nat, x: seq<Cell>, u: Amphipod)
    requires |b.rooms| == 4 && n < 4
    ensures Tokens(Burrow(b.hallway, b.rooms[n := x]), u) + Count(b.rooms[n], u) == Tokens(b, u) + Count(x, u)
  {
    var rooms := b.rooms[n := x];
    if n == 0 {
      assert rooms[1] == b.rooms[1] && rooms[2] == b.rooms[2] && rooms[3] == b.rooms[3];
    } else if n == 1 {
      assert rooms[0] == b.rooms[0] && rooms[2] == b.rooms[2] && rooms[3] == b.rooms[3];
    } else if n == 2 {
      assert rooms[0] == b.rooms[0] && rooms[1] == b.rooms[1] && rooms[3] == b.rooms[3];
    } else {
      assert rooms[0] == b.rooms[0] && rooms[1] == b.rooms[1] && rooms[2] == b.rooms[2];
    }
  }

  lemma RoomToRoomMeasure(b: Burrow, n: nat)
    requires WellShaped(b) && RoomToRoomOk(b, n)
    ensures Measure(RoomToRoom(b, n).0) < Measure(b)
  {
    RoomToRoomShape(b, n);
    var t := Leaver(b, n);
    var r := Room(t);
    var p := RemoveIdx(b.rooms[n]);
    var q := InsertIdx(b.rooms[r]);
    var m := RoomToRoom(b, n).0;
    PopulationUpdate(b.rooms[n], p, None);
    FromRoomOfRoom(t);
    assert IsRoomEnterable(m, r);
    assert Misplaced(m, n) < Misplaced(b, n);
    forall k: nat | k < 4 && k != n && k != r
      ensures Misplaced(m, k) == Misplaced(b, k)
    {
      assert m.rooms[k] == b.rooms[k];
    }
  }

  /** Every legal move keeps the token multiset and lowers the measure. */
  lemma LegalMoveProgress(b: Burrow, m: (Burrow, nat))
    requires Valid(b) && LegalMove(b, m)
    ensures Valid(m.0) && forall t :: Tokens(m.0, t) == Tokens(b, t)
    ensures Measure(m.0) < Measure(b)
  {
    if i :| HallwayToRoomOk(b, i) && m == HallwayToRoom(b, i) {
      HallwayToRoomProgress(b, i);
    } else if i, j :| RoomToHallwayOk(b, i, j) && m == RoomToHallway(b, i, j) {
      RoomToHallwayProgress(b, i, j);
    } else {
      var n :| RoomToRoomOk(b, n) && m == RoomToRoom(b, n);
      RoomToRoomProgress(b, n);
    }
  }

  /** A legal move never leaves a token on a doorway cell. */
  lemma LegalMoveKeepsDoorways(b: Burrow, m: (Burrow, nat), p: nat)
    requires WellShaped(b) && LegalMove(b, m) && IsDoorwayCell(p)
    ensures m.0.hallway[p] == b.hallway[p]
  {
    if i: nat :| HallwayToRoomOk(b, i) && m == HallwayToRoom(b, i) {
      assert i != p;
      HallwayMoveSwaps(b, i, Room(b.hallway[i].value));
    } else if i: nat, j: nat :| RoomToHallwayOk(b, i, j) && m == RoomToHallway(b, i, j) {
      assert i != p;
      NotEnterableHasToken(b, j);
      HallwayMoveSwaps(b, i, j);
    } else {
      var n :| RoomToRoomOk(b, n) && m == RoomToRoom(b, n);
      RoomToRoomShape(b, n);
    }
  }

  // ---------------------------------------------------------------------
  // The finished burrow
  // ---------------------------------------------------------------------

  /** When every room is done all tokens are home, so the hallway is empty. */
  lemma DoneIsFinished(b: Burrow)
    requires Valid(b) && IsBurrowDone(b)
    ensures b == Finished(Depth(b))
  {
    var f := Finished(Depth(b));
    forall p | 0 <= p < HallwayLength
      ensures b.hallway[p].None?
    {
      if b.hallway[p].Some? {
        var t := b.hallway[p].value;
        CountHas(b.hallway, p);
        FromRoomOfRoom(t);
        assert IsRoomDone(b, Room(t));
        CountFull(b.rooms[Room(t)], t);
        TokensAtLeast(b, Room(t), t);
        assert false;
      }
    }
    assert b.hallway == f.hallway;
    forall r | 0 <= r < 4
      ensures b.rooms[r] == f.rooms[r]
    {
      forall k | 0 <= k < Depth(b)
        ensures b.rooms[r][k] == f.rooms[r][k]
      {
        assert f.rooms[r][k] == Some(FromRoom(r));
        assert IsRoomDone(b, r);
      }
    }
    assert b.rooms == f.rooms;
  }

  lemma FinishedIsDone(depth: nat)
    requires depth == 2 || depth == 4
    ensures Valid(Finished(depth)) && IsBurrowDone(Finished(depth))
  {
    var f := Finished(depth);
    forall t: Amphipod
      ensures Tokens(f, t) == depth
    {
      CountNone(f.hallway, t);
      forall r | 0 <= r < 4
        ensures Count(f.rooms[r], t) == if r == Room(t) then depth else 0
      {
        if r == Room(t) {
          CountFull(f.rooms[r], t);
        } else {
          CountNone(f.rooms[r], t);
        }
      }
    }
  }

  /** The search stops at a done burrow: no legal move leaves it. */
  lemma DoneHasNoMoves(b: Burrow, m: (Burrow, nat))
    requires Valid(b) && IsBurrowDone(b)
    ensures !LegalMove(b, m)
  {
    DoneIsFinished(b);
  }

  // ---------------------------------------------------------------------
  // `Burrow::get_possible_moves`
  // ---------------------------------------------------------------------

  /** Every element of `moves` is a legal move from `b`. */
  ghost predicate AllLegal(b: Burrow, moves: seq<(Burrow, nat)>)
    requires WellShaped(b)
  {
    forall m :: m in moves ==> LegalMove(b, m)
  }

  lemma AllLegalAt(b: Burrow, moves: seq<(Burrow, nat)>, e: nat)
    requires WellShaped(b) && AllLegal(b, moves) && e < |moves|
    ensures LegalMove(b, moves[e])
  {
    assert moves[e] in moves;
  }

  lemma AllLegalConcat(b: Burrow, xs: seq<(Burrow, nat)>, ys: seq<(Burrow, nat)>)
    requires WellShaped(b) && AllLegal(b, xs) && AllLegal(b, ys)
    ensures AllLegal(b, xs + ys)
  {
  }

  lemma AllLegalSingle(b: Burrow, m: (Burrow, nat))
    requires WellShaped(b) && LegalMove(b, m)
    ensures AllLegal(b, [m])
  {
  }

  /** The stops the hallway loop has handled after `s` rounds lie below this cell. */
  function StopBound(s: nat): nat
    requires s <= |Stops|
  {
    if s < |Stops| then Stops[s] else HallwayLength
  }

  /** `moves` holds every legal move from or to a stop below `lim`. */
  ghost predicate CoversStops(b: Burrow, moves: seq<(Burrow, nat)>, lim: nat)
    requires WellShaped(b)
  {
    && (forall i: nat {:trigger HallwayToRoomOk(b, i)} :: i < lim && HallwayToRoomOk(b, i) ==> HallwayToRoom(b, i) in moves)
    && (forall i: nat, j: nat {:trigger RoomToHallwayOk(b, i, j)} :: i < lim && RoomToHallwayOk(b, i, j) ==> RoomToHallway(b, i, j) in moves)
  }

  /** `moves` holds every legal room-to-room move. */
  ghost predicate CoversRooms(b: Burrow, moves: seq<(Burrow, nat)>)
    requires WellShaped(b)
  {
    forall n {:trigger RoomToRoomOk(b, n)} :: RoomToRoomOk(b, n) ==> RoomToRoom(b, n) in moves
  }

  lemma CoversStep(b: Burrow, moves: seq<(Burrow, nat)>, fromStop: seq<(Burrow, nat)>, s: nat)
    requires WellShaped(b) && s < |Stops| && CoversStops(b, moves, StopBound(s))
    requires HallwayToRoomOk(b, Stops[s]) ==> HallwayToRoom(b, Stops[s]) in fromStop
    requires forall j: nat {:trigger RoomToHallwayOk(b, Stops[s], j)} :: RoomToHallwayOk(b, Stops[s], j) ==> RoomToHallway(b, Stops[s], j) in fromStop
    ensures CoversStops(b, moves + fromStop, StopBound(s + 1))
  {
    forall i: nat | i < StopBound(s + 1) && HallwayToRoomOk(b, i)
      ensures HallwayToRoom(b, i) in moves + fromStop
    {
      if i >= StopBound(s) {
        assert i == Stops[s];
      }
    }
    forall i: nat, j: nat | i < StopBound(s + 1) && RoomToHallwayOk(b, i, j)
      ensures RoomToHallway(b, i, j) in moves + fromStop
    {
      if i >= StopBound(s) {
        assert i == Stops[s];
      }
    }
  }

  /** Covering the three rules is covering every legal move. */
  lemma CoversLegal(b: Burrow, moves: seq<(Burrow, nat)>)
    requires WellShaped(b) && CoversStops(b, moves, HallwayLength) && CoversRooms(b, moves)
    ensures forall m :: LegalMove(b, m) ==> m in moves
  {
    forall m | LegalMove(b, m)
      ensures m in moves
    {
      if i :| HallwayToRoomOk(b, i) && m == HallwayToRoom(b, i) {
        assert HallwayToRoom(b, i) in moves;
      } else if i, j :| RoomToHallwayOk(b, i, j) && m == RoomToHallway(b, i, j) {
        assert RoomToHallway(b, i, j) in moves;
      } else {
        var n :| RoomToRoomOk(b, n) && m == RoomToRoom(b, n);
        assert RoomToRoom(b, n) in moves;
      }
    }
  }

  lemma HallwayToRoomLegal(b: Burrow, i: nat)
    requires WellShaped(b) && HallwayToRoomOk(b, i)
    ensures AllLegal(b, [HallwayToRoom(b, i)])
  {
    AllLegalSingle(b, HallwayToRoom(b, i));
  }

  lemma RoomToHallwayLegal(b: Burrow, i: nat, j: nat)
    requires WellShaped(b) && RoomToHallwayOk(b, i, j)
    ensures AllLegal(b, [RoomToHallway(b, i, j)])
  {
    AllLegalSingle(b, RoomToHallway(b, i, j));
  }

  lemma RoomToRoomLegal(b: Burrow, n: nat)
    requires WellShaped(b) && RoomToRoomOk(b, n)
    ensures AllLegal(b, [RoomToRoom(b, n)])
  {
    AllLegalSingle(b, RoomToRoom(b, n));
  }

  /**
   * The move generator, following the source's loops: the hallway stops in
   * order, then every room that may be left. It yields exactly the legal
   * moves.
   */
  method GetPossibleMoves(b: Burrow) returns (moves: seq<(Burrow, nat)>)
    requires Valid(b)
    ensures AllLegal(b, moves)
    ensures forall m :: LegalMove(b, m) ==> m in moves
  {
    moves := [];
    for s := 0 to |Stops|
      invariant AllLegal(b, moves)
      invariant CoversStops(b, moves, StopBound(s))
    {
      var fromStop := MovesAtStop(b, Stops[s]);
      AllLegalConcat(b, moves, fromStop);
      CoversStep(b, moves, fromStop, s);
      moves := moves + fromStop;
    }
    var departures := RoomToRoomMoves(b);
    AllLegalConcat(b, moves, departures);
    assert CoversStops(b, moves + departures, HallwayLength);
    moves := moves + departures;
    CoversLegal(b, moves);
  }

  /** One pass of the hallway loop: the moves that involve stop `i`. */
  method MovesAtStop(b: Burrow, i: nat) returns (moves: seq<(Burrow, nat)>)
    requires Valid(b) && IsStop(i) && i < HallwayLength
    ensures AllLegal(b, moves)
    ensures HallwayToRoomOk(b, i) ==> HallwayToRoom(b, i) in moves
    ensures forall j: nat {:trigger RoomToHallwayOk(b, i, j)} :: RoomToHallwayOk(b, i, j) ==> RoomToHallway(b, i, j) in moves
  {
    if b.hallway[i].Some? {
      moves := MoveHome(b, i);
    } else {
      moves := MovesOut(b, i);
    }
  }

  /** A token on stop `i` walks into its own room, if it may and the way is clear. */
  method MoveHome(b: Burrow, i: nat) returns (moves: seq<(Burrow, nat)>)
    requires Valid(b) && IsStop(i) && i < HallwayLength && b.hallway[i].Some?
    ensures AllLegal(b, moves)
    ensures HallwayToRoomOk(b, i) ==> HallwayToRoom(b, i) in moves
  {
    moves := [];
    var guy := b.hallway[i].value;
    if IsRoomEnterable(b, Room(guy)) {
      var clear := if i < Doorway(guy) then IsPathClear(b, i + 1, Doorway(guy)) else IsPathClear(b, i - 1, Doorway(guy));
      if clear {
        EnterableHomeHasRoom(b, i);
        var (moved, dist) := HallwayMove(b, i, Room(guy));
        moves := [(moved, dist * Energy(guy))];
        assert HallwayToRoomOk(b, i);
        HallwayToRoomLegal(b, i);
      }
    }
  }

  /** The empty stop `i` receives the shallowest token of any room that must be left. */
  method MovesOut(b: Burrow, i: nat) returns (moves: seq<(Burrow, nat)>)
    requires Valid(b) && IsStop(i) && i < HallwayLength && b.hallway[i].None?
    ensures AllLegal(b, moves)
    ensures forall j: nat {:trigger RoomToHallwayOk(b, i, j)} :: RoomToHallwayOk(b, i, j) ==> RoomToHallway(b, i, j) in moves
  {
    moves := [];
    for j := 0 to 4
      invariant AllLegal(b, moves)
      invariant forall j': nat {:trigger RoomToHallwayOk(b, i, j')} :: j' < j && RoomToHallwayOk(b, i, j') ==> RoomToHallway(b, i, j') in moves
    {
      var found := MoveOutOf(b, i, j);
      AllLegalConcat(b, moves, found);
      moves := moves + found;
    }
  }

  /** Room `j`'s shallowest token steps out to the empty stop `i`, if the room must be left and the way is clear. */
  method MoveOutOf(b: Burrow, i: nat, j: nat) returns (found: seq<(Burrow, nat)>)
    requires Valid(b) && IsStop(i) && i < HallwayLength && b.hallway[i].None? && j < 4
    ensures AllLegal(b, found)
    ensures RoomToHallwayOk(b, i, j) ==> RoomToHallway(b, i, j) in found
  {
    found := [];
    if !IsRoomDone(b, j) && !IsRoomEnterable(b, j) {
      if IsPathClear(b, i, (j + 1) * 2) {
        NotEnterableHasToken(b, j);
        var (moved, dist) := HallwayMove(b, i, j);
        assert moved.hallway[i] == b.rooms[j][RemoveIdx(b.rooms[j])];
        var guy := moved.hallway[i].value;
        assert RoomToHallwayOk(b, i, j);
        RoomToHallwayLegal(b, i, j);
        found := [(moved, dist * Energy(guy))];
      }
    }
  }

  /** The final loop: tokens leaving a room straight for their own room. */
  method RoomToRoomMoves(b: Burrow) returns (moves: seq<(Burrow, nat)>)
    requires Valid(b)
    ensures AllLegal(b, moves)
    ensures CoversRooms(b, moves)
  {
    var canArrive, canDepart := RoomLists(b);
    moves := [];
    for d := 0 to |canDepart|
      invariant AllLegal(b, moves)
      invariant DeparturesCovered(b, canDepart, d, moves)
    {
      assert canDepart[d] in canDepart;
      var found := DepartFrom(b, canDepart[d], canArrive);
      AllLegalConcat(b, moves, found);
      DeparturesExtend(b, canDepart, d, moves, found);
      moves := moves + found;
    }
    DeparturesAll(b, canDepart, moves);
  }

  /** The first `d` departing rooms whose move is legal have that move listed. */
  ghost predicate DeparturesCovered(b: Burrow, canDepart: seq<nat>, d: nat, moves: seq<(Burrow, nat)>)
    requires WellShaped(b) && d <= |canDepart|
  {
    forall d' {:trigger canDepart[d']} :: 0 <= d' < d && RoomToRoomOk(b, canDepart[d']) ==> RoomToRoom(b, canDepart[d']) in moves
  }

  lemma DeparturesExtend(b: Burrow, canDepart: seq<nat>, d: nat, moves: seq<(Burrow, nat)>, found: seq<(Burrow, nat)>)
    requires WellShaped(b) && d < |canDepart|
    requires DeparturesCovered(b, canDepart, d, moves)
    requires RoomToRoomOk(b, canDepart[d]) ==> RoomToRoom(b, canDepart[d]) in found
    ensures DeparturesCovered(b, canDepart, d + 1, moves + found)
  {
    forall d' | 0 <= d' < d + 1 && RoomToRoomOk(b, canDepart[d'])
      ensures RoomToRoom(b, canDepart[d']) in moves + found
    {
      if d' < d {
        assert RoomToRoom(b, canDepart[d']) in moves;
      }
    }
  }

  lemma DeparturesAll(b: Burrow, canDepart: seq<nat>, moves: seq<(Burrow, nat)>)
    requires WellShaped(b)
    requires forall r: nat :: r in canDepart <==> r < 4 && !IsRoomDone(b, r) && !IsRoomEnterable(b, r) && Population(b.rooms[r]) > 0
    requires DeparturesCovered(b, canDepart, |canDepart|, moves)
    ensures CoversRooms(b, moves)
  {
    forall n | RoomToRoomOk(b, n)
      ensures RoomToRoom(b, n) in moves
    {
      assert n in canDepart;
      var d :| 0 <= d < |canDepart| && canDepart[d] == n;
    }
  }

  /** One departing room: its shallowest token goes home when its room admits it and the way is clear. */
  method DepartFrom(b: Burrow, n: nat, canArrive: seq<nat>) returns (found: seq<(Burrow, nat)>)
    requires Valid(b) && n < 4
    requires !IsRoomDone(b, n) && !IsRoomEnterable(b, n) && Population(b.rooms[n]) > 0
    requires forall r: nat :: r in canArrive <==> r < 4 && IsRoomEnterable(b, r)
    ensures AllLegal(b, found)
    ensures RoomToRoomOk(b, n) ==> RoomToRoom(b, n) in found
  {
    found := [];
    NotEnterableHasToken(b, n);
    var leaving := b.rooms[n][RemoveIdx(b.rooms[n])];
    if leaving.Some? {
      var leaver := leaving.value;
      if Room(leaver) in canArrive && IsPathClear(b, (n + 1) * 2, Doorway(leaver)) {
        EnterableHomeHasRoomFrom(b, n);
        var (moved, dist) := RoomMove(b, n, Room(leaver));
        assert RoomToRoomOk(b, n);
        RoomToRoomLegal(b, n);
        found := [(moved, dist * Energy(leaver))];
      }
    }
  }

  /** `can_arrive` and `can_depart`: the rooms that may be entered, and those that must be left. */
  method RoomLists(b: Burrow) returns (canArrive: seq<nat>, canDepart: seq<nat>)
    requires WellShaped(b)
    ensures forall r: nat :: r in canArrive <==> r < 4 && IsRoomEnterable(b, r)
    ensures forall r: nat :: r in canDepart <==> r < 4 && !IsRoomDone(b, r) && !IsRoomEnterable(b, r) && Population(b.rooms[r]) > 0
  {
    canArrive := [];
    canDepart := [];
    for n := 0 to 4
      invariant forall r: nat :: r in canArrive <==> r < n && IsRoomEnterable(b, r)
      invariant forall r: nat :: r in canDepart <==> r < n && !IsRoomDone(b, r) && !IsRoomEnterable(b, r) && Population(b.rooms[r]) > 0
    {
      if IsRoomEnterable(b, n) {
        canArrive := canArrive + [n];
      }
      if !IsRoomDone(b, n) && !IsRoomEnterable(b, n) && Population(b.rooms[n]) > 0 {
        canDepart := canDepart + [n];
      }
    }
  }

  lemma StopIndex(i: nat)
    requires IsStop(i)
    ensures exists s :: 0 <= s < |Stops| && Stops[s] == i
  {
    if i == 0 { assert Stops[0] == i; }
    else if i == 1 { assert Stops[1] == i; }
    else if i == 3 { assert Stops[2] == i; }
    else if i == 5 { assert Stops[3] == i; }
    else if i == 7 { assert Stops[4] == i; }
    else if i == 9 { assert Stops[5] == i; }
    else { assert Stops[6] == i; }
  }

  // ---------------------------------------------------------------------
  // Paths through the state space
  // ---------------------------------------------------------------------

  /**
   * One step of the search: a legal move from a well-shaped burrow. Kept
   * apart from `LegalMove` so that reasoning about the search does not
   * unfold the move rules.
   */
  ghost predicate Succ(b: Burrow, m: (Burrow, nat)) {
    WellShaped(b) && LegalMove(b, m)
  }

  /** A sequence of legal moves, each taken from the state the last one produced. */
  ghost predicate IsPath(s: Burrow, path: seq<(Burrow, nat)>)
    decreases |path|
  {
    path == [] || (Succ(s, path[0]) && IsPath(path[0].0, path[1..]))
  }

  function End(s: Burrow, path: seq<(Burrow, nat)>): Burrow {
    if path == [] then s else path[|path| - 1].0
  }

  /** The energy a path spends: the sum of its move costs. */
  function Cost(path: seq<(Burrow, nat)>): nat {
    if path == [] then 0 else path[0].1 + Cost(path[1..])
  }

  /** `t` can be reached from `s` spending exactly `c`. */
  ghost predicate Reach(s: Burrow, t: Burrow, c: nat) {
    exists path :: IsPath(s, path) && End(s, path) == t && Cost(path) == c
  }

  /** The same, with at least one move. */
  ghost predicate ReachPlus(s: Burrow, t: Burrow, c: nat) {
    exists path :: |path| > 0 && IsPath(s, path) && End(s, path) == t && Cost(path) == c
  }

  lemma EndTail(s: Burrow, path: seq<(Burrow, nat)>)
    requires |path| > 0
    ensures End(s, path) == End(path[0].0, path[1..])
  {
  }

  lemma ReachRefl(s: Burrow)
    ensures Reach(s, s, 0)
  {
    assert IsPath(s, []) && End(s, []) == s && Cost([]) == 0;
  }

  /** Prefixing a legal move to a path from its target. */
  lemma ReachStep(s: Burrow, m: (Burrow, nat), t: Burrow, c: nat)
    requires Succ(s, m) && Reach(m.0, t, c)
    ensures Reach(s, t, m.1 + c) && ReachPlus(s, t, m.1 + c)
  {
    var path :| IsPath(m.0, path) && End(m.0, path) == t && Cost(path) == c;
    var longer := [m] + path;
    assert longer[1..] == path;
    EndTail(s, longer);
    assert IsPath(s, longer) && End(s, longer) == t && Cost(longer) == m.1 + c;
  }

  // ---------------------------------------------------------------------
  // `solve` and `find_best_outcome`
  // ---------------------------------------------------------------------

  ghost predicate AllValid(best: map<Burrow, nat>) {
    forall k :: k in best ==> Valid(k)
  }

  /**
   * A recorded state whose every successor is recorded at no more than the
   * state's own score plus the move's cost. A done burrow has nothing to
   * explore.
   */
  ghost predicate ClosedAt(best: map<Burrow, nat>, k: Burrow) {
    && k in best && Valid(k)
    && (!IsBurrowDone(k) ==> forall m :: Succ(k, m) ==> m.0 in best && best[m.0] <= best[k] + m.1)
  }

  /** A key that is new, or whose score moved, between two tables. */
  ghost predicate Changed(before: map<Burrow, nat>, after: map<Burrow, nat>, k: Burrow) {
    k in after && (k !in before || after[k] != before[k])
  }

  /** No key is dropped and no score rises. */
  ghost predicate ScoresFall(before: map<Burrow, nat>, after: map<Burrow, nat>) {
    forall k :: k in before ==> k in after && after[k] <= before[k]
  }

  /**
   * Every score that `solve` from `b` at cost `total` wrote is the cost of a
   * real path from `b`, plus `total`.
   */
  ghost predicate ScoresReachable(b: Burrow, best: map<Burrow, nat>, total: nat, after: map<Burrow, nat>)
    requires Valid(b)
  {
    forall k :: Changed(best, after, k) ==>
      Measure(k) <= Measure(b) && total <= after[k] && Reach(b, k, after[k] - total)
  }

  /** Every recorded state with measure at most `n` is closed. */
  ghost predicate ClosedUpTo(best: map<Burrow, nat>, n: int) {
    forall k {:trigger ClosedAt(best, k)} :: k in best && Measure(k) <= n ==> ClosedAt(best, k)
  }

  /** States above measure `n` that were closed stay closed. */
  ghost predicate StaysClosedAbove(before: map<Burrow, nat>, after: map<Burrow, nat>, n: int) {
    forall k {:trigger ClosedAt(after, k)} :: k in before && n < Measure(k) && ClosedAt(before, k) ==> ClosedAt(after, k)
  }

  /**
   * Each of the first `n` moves of `ms` leads to a state recorded at most at
   * `total` plus its cost.
   */
  ghost predicate Explored(best: map<Burrow, nat>, ms: seq<(Burrow, nat)>, n: nat, total: nat)
    requires n <= |ms|
  {
    forall e :: 0 <= e < n ==> ms[e].0 in best && best[ms[e].0] <= total + ms[e].1
  }

  /** The invariant of the loop over the moves of `b` inside `solve`. */
  ghost predicate SolveLoop(b: Burrow, best: map<Burrow, nat>, total: nat, cur: map<Burrow, nat>)
    requires Valid(b)
  {
    && AllValid(cur) && b in cur && cur[b] == total
    && ScoresFall(best, cur) && ScoresReachable(b, best, total, cur)
    && (forall k {:trigger Changed(best, cur, k)} :: Changed(best, cur, k) && k != b ==> Measure(k) < Measure(b))
    && ClosedUpTo(cur, Measure(b) - 1)
    && (forall k {:trigger ClosedAt(cur, k)} :: k in best && k != b && Measure(b) <= Measure(k) && ClosedAt(best, k) ==> ClosedAt(cur, k))
  }

  /** Lowering other scores never breaks a closed state. */
  lemma ClosedMono(before: map<Burrow, nat>, after: map<Burrow, nat>, k: Burrow)
    requires ClosedAt(before, k) && ScoresFall(before, after)
    requires k in after && after[k] == before[k]
    ensures ClosedAt(after, k)
  {
    if !IsBurrowDone(k) {
      forall m | Succ(k, m)
        ensures m.0 in after && after[m.0] <= after[k] + m.1
      {
        assert m.0 in before;
      }
    }
  }

  /** Recording `b` at `total` starts the loop invariant. */
  lemma SolveEnter(b: Burrow, best: map<Burrow, nat>, total: nat)
    requires Valid(b) && AllValid(best) && ClosedUpTo(best, Measure(b))
    requires !(b in best && total >= best[b])
    ensures SolveLoop(b, best, total, best[b := total])
  {
    var cur := best[b := total];
    assert AllValid(cur);
    assert ScoresFall(best, cur);
    EnterReachable(b, best, total);
    EnterClosedBelow(b, best, total);
    EnterClosedAbove(b, best, total);
  }

  /** The only score recording `b` changes is its own, reached by no move at all. */
  lemma EnterReachable(b: Burrow, best: map<Burrow, nat>, total: nat)
    requires Valid(b)
    ensures ScoresReachable(b, best, total, best[b := total])
    ensures forall k {:trigger Changed(best, best[b := total], k)} :: Changed(best, best[b := total], k) && k != b ==> Measure(k) < Measure(b)
  {
    ReachRefl(b);
  }

  /** The states below `b` stay closed: `b` is not one of them. */
  lemma EnterClosedBelow(b: Burrow, best: map<Burrow, nat>, total: nat)
    requires Valid(b) && ClosedUpTo(best, Measure(b))
    requires !(b in best && total >= best[b])
    ensures ClosedUpTo(best[b := total], Measure(b) - 1)
  {
    var cur := best[b := total];
    forall k | k in cur && Measure(k) <= Measure(b) - 1
      ensures ClosedAt(cur, k)
    {
      assert k != b && k in best;
      assert ClosedAt(best, k);
      ClosedMono(best, cur, k);
    }
  }

  /** The closed states other than `b` stay closed when `b`'s score falls. */
  lemma EnterClosedAbove(b: Burrow, best: map<Burrow, nat>, total: nat)
    requires !(b in best && total >= best[b])
    ensures forall k {:trigger ClosedAt(best[b := total], k)} :: k in best && k != b && Measure(b) <= Measure(k) && ClosedAt(best, k) ==> ClosedAt(best[b := total], k)
  {
    var cur := best[b := total];
    assert ScoresFall(best, cur);
    forall k | k in best && k != b && ClosedAt(best, k)
      ensures ClosedAt(cur, k)
    {
      ClosedMono(best, cur, k);
    }
  }

  /** One child call of `solve` keeps the loop invariant. */
  lemma SolveStep(b: Burrow, m: (Burrow, nat), best: map<Burrow, nat>, total: nat,
                  prev: map<Burrow, nat>, next: map<Burrow, nat>)
    requires Valid(b) && Succ(b, m) && Valid(m.0) && Measure(m.0) < Measure(b)
    requires SolveLoop(b, best, total, prev)
    requires AllValid(next) && m.0 in next && next[m.0] <= total + m.1
    requires ScoresFall(prev, next) && ScoresReachable(m.0, prev, total + m.1, next)
    requires ClosedUpTo(next, Measure(m.0)) && StaysClosedAbove(prev, next, Measure(m.0))
    ensures SolveLoop(b, best, total, next)
  {
    assert !Changed(prev, next, b);
    assert ScoresFall(best, next);
    forall k | Changed(best, next, k)
      ensures Measure(k) <= Measure(b) && total <= next[k] && Reach(b, k, next[k] - total)
      ensures k != b ==> Measure(k) < Measure(b)
    {
      if Changed(prev, next, k) {
        ReachStep(b, m, k, next[k] - (total + m.1));
      } else {
        assert Changed(best, prev, k);
      }
    }
    forall k | k in next && Measure(k) <= Measure(b) - 1
      ensures ClosedAt(next, k)
    {
      if Measure(m.0) < Measure(k) {
        assert !Changed(prev, next, k);
        assert ClosedAt(prev, k);
      }
    }
    forall k | k in best && k != b && Measure(b) <= Measure(k) && ClosedAt(best, k)
      ensures ClosedAt(next, k)
    {
      assert ClosedAt(prev, k);
    }
  }

  /** After the loop `b` itself is closed, which gives `solve`'s contract. */
  lemma SolveExit(b: Burrow, best: map<Burrow, nat>, total: nat, cur: map<Burrow, nat>)
    requires Valid(b) && ClosedUpTo(best, Measure(b))
    requires SolveLoop(b, best, total, cur)
    requires !IsBurrowDone(b) ==> forall m :: Succ(b, m) ==> m.0 in cur && cur[m.0] <= total + m.1
    ensures ClosedUpTo(cur, Measure(b))
    ensures StaysClosedAbove(best, cur, Measure(b))
  {
    assert ClosedAt(cur, b);
    forall k | k in cur && Measure(k) <= Measure(b)
      ensures ClosedAt(cur, k)
    {
      if k != b && Measure(k) == Measure(b) {
        assert !Changed(best, cur, k);
        assert ClosedAt(best, k);
      }
    }
  }

  lemma ExploredExtend(prev: map<Burrow, nat>, next: map<Burrow, nat>, ms: seq<(Burrow, nat)>, n: nat, total: nat)
    requires n < |ms| && Explored(prev, ms, n, total) && ScoresFall(prev, next)
    requires ms[n].0 in next && next[ms[n].0] <= total + ms[n].1
    ensures Explored(next, ms, n + 1, total)
  {
    forall e | 0 <= e < n + 1
      ensures ms[e].0 in next && next[ms[e].0] <= total + ms[e].1
    {
      if e < n {
        assert ms[e].0 in prev;
      }
    }
  }

  /** Having explored every generated move covers every legal move. */
  lemma ExploredAll(b: Burrow, moves: seq<(Burrow, nat)>, cur: map<Burrow, nat>, total: nat)
    requires WellShaped(b) && Explored(cur, moves, |moves|, total)
    requires forall m :: LegalMove(b, m) ==> m in moves
    ensures forall m :: Succ(b, m) ==> m.0 in cur && cur[m.0] <= total + m.1
  {
    forall m | Succ(b, m)
      ensures m.0 in cur && cur[m.0] <= total + m.1
    {
      var e :| 0 <= e < |moves| && moves[e] == m;
    }
  }

  /**
   * `solve`: explore from `b`, reached so far at cost `total`, recording in
   * `best` the lowest cost seen for every state. A state already recorded at
   * no more than `total` is pruned. The table is passed in and returned, as
   * the source lends it mutably.
   *
   * The contract: scores only fall; `b` ends up recorded at most at `total`
   * (exactly `total` unless pruned); each new score is the cost of a real
   * path from `b`; every recorded state no further along than `b` ends up
   * closed, and states further along that were closed stay closed.
   */
  method Solve(b: Burrow, best: map<Burrow, nat>, total: nat) returns (best': map<Burrow, nat>)
    requires Valid(b) && AllValid(best)
    requires ClosedUpTo(best, Measure(b))
    ensures AllValid(best')
    ensures b in best' && best'[b] <= total
    ensures b in best && total >= best[b] ==> best' == best
    ensures !(b in best && total >= best[b]) ==> best'[b] == total
    ensures ScoresFall(best, best')
    ensures ScoresReachable(b, best, total, best')
    ensures ClosedUpTo(best', Measure(b))
    ensures StaysClosedAbove(best, best', Measure(b))
    decreases Measure(b)
  {
    if b in best && total >= best[b] {
      return best;
    }
    best' := best[b := total];
    SolveEnter(b, best, total);
    if !IsBurrowDone(b) {
      var moves := GetPossibleMoves(b);
      for idx := 0 to |moves|
        invariant SolveLoop(b, best, total, best')
        invariant Explored(best', moves, idx, total)
      {
        var m := moves[idx];
        AllLegalAt(b, moves, idx);
        LegalMoveProgress(b, m);
        var prev := best';
        best' := Solve(m.0, prev, total + m.1);
        SolveStep(b, m, best, total, prev, best');
        ExploredExtend(prev, best', moves, idx, total);
      }
      ExploredAll(b, moves, best', total);
    }
    SolveExit(b, best, total, best');
  }

  /** Every recorded state is closed, so scores propagate along any path. */
  lemma {:induction false} ClosedReach(db: map<Burrow, nat>, k: Burrow, path: seq<(Burrow, nat)>)
    requires forall x :: x in db ==> ClosedAt(db, x)
    requires k in db && IsPath(k, path)
    ensures End(k, path) in db && db[End(k, path)] <= db[k] + Cost(path)
    decreases |path|
  {
    if path != [] {
      var m := path[0];
      assert ClosedAt(db, k);
      if IsBurrowDone(k) {
        DoneHasNoMoves(k, m);
      }
      EndTail(k, path);
      ClosedReach(db, m.0, path[1..]);
    }
  }

  /** The invariant of `find_best_outcome`'s loop over the first moves. */
  ghost predicate OutcomeLoop(start: Burrow, db: map<Burrow, nat>) {
    && AllValid(db)
    && (forall k :: k in db ==> ClosedAt(db, k))
    && (forall k :: k in db ==> ReachPlus(start, k, db[k]))
  }

  lemma OutcomeStep(start: Burrow, m: (Burrow, nat), prev: map<Burrow, nat>, next: map<Burrow, nat>)
    requires Succ(start, m) && Valid(m.0)
    requires OutcomeLoop(start, prev)
    requires AllValid(next) && ScoresFall(prev, next) && ScoresReachable(m.0, prev, m.1, next)
    requires ClosedUpTo(next, Measure(m.0)) && StaysClosedAbove(prev, next, Measure(m.0))
    ensures OutcomeLoop(start, next)
  {
    forall k | k in next
      ensures ReachPlus(start, k, next[k]) && ClosedAt(next, k)
    {
      if Changed(prev, next, k) {
        ReachStep(start, m, k, next[k] - m.1);
        assert ClosedAt(next, k);
      } else {
        assert ClosedAt(prev, k);
        if Measure(k) <= Measure(m.0) {
          assert ClosedAt(next, k);
        } else {
          assert ClosedAt(next, k);
        }
      }
    }
  }

  /** After the loop, the recorded score of any state bounds every path to it. */
  lemma OutcomeOptimal(start: Burrow, moves: seq<(Burrow, nat)>, db: map<Burrow, nat>, t: Burrow, c: nat)
    requires WellShaped(start) && OutcomeLoop(start, db) && Explored(db, moves, |moves|, 0)
    requires forall m :: LegalMove(start, m) ==> m in moves
    requires ReachPlus(start, t, c)
    ensures t in db && db[t] <= c
  {
    var path :| |path| > 0 && IsPath(start, path) && End(start, path) == t && Cost(path) == c;
    var m := path[0];
    var e :| 0 <= e < |moves| && moves[e] == m;
    EndTail(start, path);
    ClosedReach(db, m.0, path[1..]);
  }

  /**
   * `find_best_outcome`: run `solve` from every first move and read off the
   * finished burrow's score. The source unwraps a missing score (it panics);
   * here that is `None`, which happens exactly when the finished burrow cannot
   * be reached by at least one move.
   */
  method FindBestOutcome(start: Burrow) returns (r: Option<nat>)
    requires Valid(start)
    ensures r.Some? ==> ReachPlus(start, Finished(Depth(start)), r.value)
    ensures r.Some? ==> forall c :: ReachPlus(start, Finished(Depth(start)), c) ==> r.value <= c
    ensures r.None? <==> forall c :: !ReachPlus(start, Finished(Depth(start)), c)
  {
    var db: map<Burrow, nat> := map[];
    var finished := Finished(Depth(start));
    var moves := GetPossibleMoves(start);
    for idx := 0 to |moves|
      invariant OutcomeLoop(start, db)
      invariant Explored(db, moves, idx, 0)
    {
      var m := moves[idx];
      AllLegalAt(start, moves, idx);
      LegalMoveProgress(start, m);
      var prev := db;
      db := Solve(m.0, prev, m.1);
      OutcomeStep(start, m, prev, db);
      ExploredExtend(prev, db, moves, idx, 0);
    }
    forall c | ReachPlus(start, finished, c)
      ensures finished in db && db[finished] <= c
    {
      OutcomeOptimal(start, moves, db, finished, c);
    }
    if finished in db {
      r := Some(db[finished]);
    } else {
      r := None;
    }
  }

  // ---------------------------------------------------------------------
  // The first moves of the swap test
  // ---------------------------------------------------------------------

  /** The two-deep example burrow of the tests, built by `from_2`. */
  function Example2(): (b: Burrow)
    ensures WellShaped(b) && Depth(b) == 2
  {
    FromRooms([[B, A], [C, D], [B, C], [D, A]])
  }

  /** The example burrow cell by cell. */
  lemma Example2Cells()
    ensures Example2() == Burrow(seq(HallwayLength, _ => None), [[Some(B), Some(A)], [Some(C), Some(D)], [Some(B), Some(C)], [Some(D), Some(A)]])
  {
    var b := Example2();
    assert b.rooms[0] == [Some(B), Some(A)];
    assert b.rooms[1] == [Some(C), Some(D)];
    assert b.rooms[2] == [Some(B), Some(C)];
    assert b.rooms[3] == [Some(D), Some(A)];
  }

  /**
   * The test's first move: the `B` at the top of room 2 steps out to
   * hallway cell 3, four steps for 40 energy, and `get_possible_moves` lists
   * it.
   */
  lemma SwapTestFirst()
    ensures HasToken(Example2().rooms[2])
    ensures var (moved, dist) := HallwayMove(Example2(), 3, 2);
      && dist == 4 && moved.hallway[3] == Some(B) && moved.rooms[2][0] == None
      && !IsRoomDone(moved, 0) && !IsBurrowDone(moved)
      && LegalMove(Example2(), (moved, dist * 10))
  {
    var b := Example2();
    Example2Cells();
    assert b.rooms[2][0].Some?;
    assert RoomToHallwayOk(b, 3, 2);
    var moved := HallwayMove(b, 3, 2).0;
    HallwayMoveSwaps(b, 3, 2);
    assert moved.rooms[0][0] == Some(B);
    assert !IsRoomDone(moved, 0);
  }

  /** The burrow after the test's first move. */
  function SwapTestStep1(): (b: Burrow)
    ensures WellShaped(b) && Depth(b) == 2
  {
    SwapTestFirst();
    HallwayMove(Example2(), 3, 2).0
  }

  /**
   * The test's second move: the `C` at the top of room 1 walks straight into
   * room 2, four steps for 400 energy; room 2 is then done, and
   * `get_possible_moves` lists the move.
   */
  lemma SwapTestSecond()
    ensures HasToken(SwapTestStep1().rooms[1]) && HasEmpty(SwapTestStep1().rooms[2])
    ensures var (moved, dist) := RoomMove(SwapTestStep1(), 1, 2);
      && dist == 4 && IsRoomDone(moved, 2)
      && LegalMove(SwapTestStep1(), (moved, dist * 100))
  {
    var b := SwapTestStep1();
    Example2Cells();
    HallwayMoveSwaps(Example2(), 3, 2);
    assert b.hallway == seq(HallwayLength, _ => None)[3 := Some(B)];
    assert RemoveIdx(Example2().rooms[2]) == 0;
    assert b.rooms[0] == [Some(B), Some(A)];
    assert b.rooms[1] == [Some(C), Some(D)];
    assert b.rooms[2] == [None, Some(C)];
    assert b.rooms[3] == [Some(D), Some(A)];
    assert b.rooms[1][0].Some? && b.rooms[2][0].None?;
    assert RoomToRoomOk(b, 1);
  }
}
