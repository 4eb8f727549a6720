/**
 * The room registry (class `RoomManager`, main.py:409-592). The source keeps
 * its rooms in a dict; here they are a sequence in the dict's insertion
 * order, because "the first waiting room" and "the first active room" are
 * taken in that order. The matchmaking lock only serialises
 * `find_or_create_room`, so that call is one atomic function here.
 */
module Matchmaking {
  import opened Wrappers
  import opened Board
  import opened Games
  import opened Rooms
  import Seqs

  /** Room ids are drawn from 1..MAX_ROOMS (main.py:412). */
  const MaxRooms: int := 10

  datatype Registry = Registry(rooms: seq<Room>, lobby: seq<Conn>)

  /** A room id and a player slot in it. */
  datatype Seat = Seat(roomId: int, slot: Slot)

  /** The registry after a matchmaking call, and the seat it handed out (`(None, 0)` is `None`). */
  datatype Matched = Matched(registry: Registry, seat: Option<Seat>)

  /** The registry after `create_room`, and the id of the room it created. */
  datatype Created = Created(registry: Registry, id: Option<int>)

  predicate IdsDistinct(rooms: seq<Room>) {
    forall i, j :: 0 <= i < j < |rooms| ==> rooms[i].id != rooms[j].id
  }

  /** Every registry the server builds: one room per id, every id in 1..10. */
  predicate Valid(reg: Registry) {
    && IdsDistinct(reg.rooms)
    && forall r :: r in reg.rooms ==> 1 <= r.id <= MaxRooms
  }

  /** Position of the room with this id. */
  function Find(rooms: seq<Room>, id: int): (r: Option<nat>)
    ensures r.Some? ==> r.value < |rooms| && rooms[r.value].id == id
    ensures r.Some? ==> forall j :: 0 <= j < r.value ==> rooms[j].id != id
    ensures r.None? <==> forall j :: 0 <= j < |rooms| ==> rooms[j].id != id
  {
    if |rooms| == 0 then None
    else if rooms[0].id == id then Some(0)
    else
      match Find(rooms[1..], id)
      case None => None
      case Some(i) => Some(i + 1)
  }

  lemma FindDistinct(rooms: seq<Room>, i: int)
    requires IdsDistinct(rooms) && 0 <= i < |rooms|
    ensures Find(rooms, rooms[i].id) == Some(i)
  {
  }

  /** `rooms.get(room_id)` (main.py:456-458, 567-568). */
  function Lookup(rooms: seq<Room>, id: int): (r: Option<Room>)
    ensures r.Some? ==> r.value in rooms && r.value.id == id
    ensures r.None? <==> forall j :: 0 <= j < |rooms| ==> rooms[j].id != id
  {
    match Find(rooms, id)
    case None => None
    case Some(i) => Some(rooms[i])
  }

  lemma FindFirstMatch(rooms: seq<Room>, id: int, i: int)
    requires 0 <= i < |rooms| && rooms[i].id == id
    requires forall j :: 0 <= j < i ==> rooms[j].id != id
    ensures Find(rooms, id) == Some(i)
  {
  }

  /** Two room lists that agree on where an id occurs agree on where `Find` finds it. */
  lemma FindSameMatches(a: seq<Room>, b: seq<Room>, id: int)
    requires |a| == |b|
    requires forall j :: 0 <= j < |a| ==> (a[j].id == id <==> b[j].id == id)
    ensures Find(a, id) == Find(b, id)
  {
    if Find(a, id).Some? {
      FindFirstMatch(b, id, Find(a, id).value);
    }
  }

  /** `rooms[room.id] = room`: replaces the room with that id in place, or appends it. */
  function Put(rooms: seq<Room>, room: Room): (r: seq<Room>)
    ensures Lookup(r, room.id) == Some(room)
    ensures forall id :: id != room.id ==> Lookup(r, id) == Lookup(rooms, id)
    ensures forall x :: x in r ==> x == room || x in rooms
    ensures IdsDistinct(rooms) ==> IdsDistinct(r)
    ensures Find(rooms, room.id).Some? ==> r == rooms[Find(rooms, room.id).value := room]
    ensures Find(rooms, room.id).None? ==> r == rooms + [room]
  {
    PutFacts(rooms, room);
    match Find(rooms, room.id)
    case Some(i) => rooms[i := room]
    case None => rooms + [room]
  }

  lemma PutFacts(rooms: seq<Room>, room: Room)
    ensures var r := match Find(rooms, room.id) case Some(i) => rooms[i := room] case None => rooms + [room];
            && Lookup(r, room.id) == Some(room)
            && (forall id :: id != room.id ==> Lookup(r, id) == Lookup(rooms, id))
            && (IdsDistinct(rooms) ==> IdsDistinct(r))
  {
    match Find(rooms, room.id)
    case Some(i) =>
      var r := rooms[i := room];
      FindFirstMatch(r, room.id, i);
      forall id | id != room.id
        ensures Lookup(r, id) == Lookup(rooms, id)
      {
        FindSameMatches(r, rooms, id);
      }
    case None =>
      var r := rooms + [room];
      FindFirstMatch(r, room.id, |rooms|);
      forall id | id != room.id
        ensures Lookup(r, id) == Lookup(rooms, id)
      {
        if Find(rooms, id).Some? {
          FindFirstMatch(r, id, Find(rooms, id).value);
        }
      }
  }

  /** An id that `create_room` may (re)use: no room has it, or its room has no players. */
  predicate Reusable(rooms: seq<Room>, id: int) {
    Lookup(rooms, id).None? || IsEmpty(Lookup(rooms, id).value)
  }

  /** The lowest reusable id in `k`..10 (main.py:429-430). */
  function LowestReusable(rooms: seq<Room>, k: int): (r: Option<int>)
    requires 1 <= k
    ensures r.Some? ==> k <= r.value <= MaxRooms && Reusable(rooms, r.value)
    ensures r.Some? ==> forall j :: k <= j < r.value ==> !Reusable(rooms, j)
    ensures r.None? <==> forall j :: k <= j <= MaxRooms ==> !Reusable(rooms, j)
    decreases MaxRooms + 1 - k
  {
    if k > MaxRooms then None
    else if Reusable(rooms, k) then Some(k)
    else LowestReusable(rooms, k + 1)
  }

  /**
   * `create_room` (main.py:528-536): a fresh room at the lowest id in 1..10
   * that is unused or whose room is empty; nothing when every id is taken.
   */
  function CreateRoom(reg: Registry, pick: nat): (c: Created)
    ensures c.id.Some? ==>
              && 1 <= c.id.value <= MaxRooms
              && Reusable(reg.rooms, c.id.value)
              && (forall j :: 1 <= j < c.id.value ==> !Reusable(reg.rooms, j))
              && Lookup(c.registry.rooms, c.id.value) == Some(NewRoom(c.id.value, pick))
              && (forall id :: id != c.id.value ==> Lookup(c.registry.rooms, id) == Lookup(reg.rooms, id))
    ensures c.id.None? <==> forall j :: 1 <= j <= MaxRooms ==> !Reusable(reg.rooms, j)
    ensures c.id.None? ==> c.registry == reg
    ensures c.registry.lobby == reg.lobby
    ensures Valid(reg) ==> Valid(c.registry)
  {
    match LowestReusable(reg.rooms, 1)
    case None => Created(reg, None)
    case Some(k) => Created(reg.(rooms := Put(reg.rooms, NewRoom(k, pick))), Some(k))
  }

  /**
   * `find_or_create_room` (main.py:419-436), the locked section taken as one
   * step: the first room waiting for a second player, with its free slot;
   * otherwise a room made by `create_room`, with slot 1; otherwise nothing.
   */
  function FindOrCreateRoom(reg: Registry, pick: nat): (m: Matched)
    ensures Seqs.FirstIndex(reg.rooms, IsWaiting).Some? ==>
              var i := Seqs.FirstIndex(reg.rooms, IsWaiting).value;
              && m.registry == reg
              && m.seat.Some? && m.seat.value.roomId == reg.rooms[i].id
              && m.seat.value.slot !in reg.rooms[i].connections
    ensures Seqs.FirstIndex(reg.rooms, IsWaiting).None? ==>
              && (m.seat.Some? <==> CreateRoom(reg, pick).id.Some?)
              && (m.seat.Some? ==> m.seat.value == Seat(CreateRoom(reg, pick).id.value, 1))
              && m.registry == CreateRoom(reg, pick).registry
    ensures Valid(reg) ==> Valid(m.registry)
  {
    match Seqs.FirstIndex(reg.rooms, IsWaiting)
    case Some(i) =>
      SlotsBound(reg.rooms[i]);
      Matched(reg, Some(Seat(reg.rooms[i].id, AvailableSlot(reg.rooms[i]).value)))
    case None =>
      var c := CreateRoom(reg, pick);
      Matched(c.registry, if c.id.Some? then Some(Seat(c.id.value, 1)) else None)
  }

  /** `find_waiting_room` (main.py:438-443): the first room, in insertion order, that waits. */
  function FindWaitingRoom(reg: Registry): (r: Option<Room>)
    ensures r.Some? ==> r.value in reg.rooms && IsWaiting(r.value)
    ensures r.Some? ==> exists i :: 0 <= i < |reg.rooms| && reg.rooms[i] == r.value
                                    && forall j :: 0 <= j < i ==> !IsWaiting(reg.rooms[j])
    ensures r.None? <==> forall i :: 0 <= i < |reg.rooms| ==> !IsWaiting(reg.rooms[i])
  {
    match Seqs.FirstIndex(reg.rooms, IsWaiting)
    case None => None
    case Some(i) => Some(reg.rooms[i])
  }

  /** `find_active_room` (main.py:445-450): the first room whose game runs. */
  function FindActiveRoom(reg: Registry): (r: Option<Room>)
    ensures r.Some? ==> r.value in reg.rooms && r.value.game.running
    ensures r.Some? ==> exists i :: 0 <= i < |reg.rooms| && reg.rooms[i] == r.value
                                    && forall j :: 0 <= j < i ==> !reg.rooms[j].game.running
    ensures r.None? <==> forall i :: 0 <= i < |reg.rooms| ==> !reg.rooms[i].game.running
  {
    match Seqs.FirstIndex(reg.rooms, IsActive)
    case None => None
    case Some(i) => Some(reg.rooms[i])
  }

  /** `get_active_rooms` (main.py:452-454). */
  function ActiveRooms(reg: Registry): (rs: seq<Room>)
    ensures forall r :: r in rs <==> r in reg.rooms && r.game.running
    ensures |rs| > 0 <==> FindActiveRoom(reg).Some?
    ensures |rs| > 0 ==> rs[0] == FindActiveRoom(reg).value
  {
    Seqs.FilterHead(reg.rooms, IsActive);
    Seqs.Filter(reg.rooms, IsActive)
  }

  lemma {:induction false} FilterKeepsIdsDistinct(rooms: seq<Room>, p: Room -> bool)
    ensures IdsDistinct(rooms) ==> IdsDistinct(Seqs.Filter(rooms, p))
  {
    if |rooms| > 0 && IdsDistinct(rooms) {
      FilterKeepsIdsDistinct(rooms[1..], p);
      var rest := Seqs.Filter(rooms[1..], p);
      assert forall x :: x in rest ==> x in rooms[1..];
      assert forall x :: x in rooms[1..] ==> x.id != rooms[0].id;
    }
  }

  /** With distinct ids, a room of the list is what `Lookup` finds for its id. */
  lemma LookupMember(rooms: seq<Room>, x: Room)
    requires IdsDistinct(rooms) && x in rooms
    ensures Lookup(rooms, x.id) == Some(x)
  {
    var i :| 0 <= i < |rooms| && rooms[i] == x;
    FindDistinct(rooms, i);
  }

  /** The room at `id` if it has players, else nothing. */
  function Kept(rooms: seq<Room>, id: int): Option<Room> {
    if Lookup(rooms, id).Some? && !IsEmpty(Lookup(rooms, id).value) then Lookup(rooms, id) else None
  }

  /** `cleanup_empty_rooms` (main.py:570-575): removes exactly the rooms without players. */
  function CleanupEmptyRooms(reg: Registry): (reg': Registry)
    ensures forall r :: r in reg'.rooms <==> r in reg.rooms && !IsEmpty(r)
    ensures forall i :: 0 <= i < |reg'.rooms| ==> !IsEmpty(reg'.rooms[i])
    ensures reg'.lobby == reg.lobby
    ensures Valid(reg) ==> Valid(reg')
    ensures Valid(reg) ==> forall id :: Lookup(reg'.rooms, id) == Kept(reg.rooms, id)
  {
    FilterKeepsIdsDistinct(reg.rooms, IsNonEmpty);
    CleanupFacts(reg.rooms, Seqs.Filter(reg.rooms, IsNonEmpty));
    reg.(rooms := Seqs.Filter(reg.rooms, IsNonEmpty))
  }

  lemma CleanupFacts(rooms: seq<Room>, kept: seq<Room>)
    requires forall r :: r in kept <==> r in rooms && !IsEmpty(r)
    requires IdsDistinct(rooms) ==> IdsDistinct(kept)
    ensures IdsDistinct(rooms) ==> forall id :: Lookup(kept, id) == Kept(rooms, id)
  {
    if IdsDistinct(rooms) {
      forall id
        ensures Lookup(kept, id) == Kept(rooms, id)
      {
        CleanupLookup(rooms, kept, id);
      }
    }
  }

  lemma CleanupLookup(rooms: seq<Room>, kept: seq<Room>, id: int)
    requires IdsDistinct(rooms) && IdsDistinct(kept)
    requires forall r :: r in kept <==> r in rooms && !IsEmpty(r)
    ensures Lookup(kept, id) == Kept(rooms, id)
  {
    match Lookup(rooms, id)
    case None =>
      assert forall j :: 0 <= j < |kept| ==> kept[j] in rooms;
    case Some(x) =>
      if !IsEmpty(x) {
        LookupMember(kept, x);
      } else if Lookup(kept, id).Some? {
        var y := Lookup(kept, id).value;
        LookupMember(rooms, y);
      }
  }

  /** One entry of `get_status` (main.py:583-588); the player list is kept as a set of slots. */
  datatype RoomStatus = RoomStatus(roomId: int, players: set<Slot>, observers: nat, gameRunning: bool, waitingForPlayer: bool)

  datatype Status = Status(totalRooms: nat, rooms: seq<RoomStatus>)

  /**
   * The per-room entry (main.py:583-588): a room is reported with players
   * exactly when it is occupied, and as waiting exactly when it holds one
   * player and no game runs.
   */
  function StatusOf(r: Room): (st: RoomStatus)
    ensures st.roomId == r.id && st.observers == |r.observers| && st.gameRunning == r.game.running
    ensures st.players != {} <==> !IsEmpty(r)
    ensures forall t: Slot :: t in st.players <==> t in r.connections
    ensures st.waitingForPlayer <==> |st.players| == 1 && !st.gameRunning
  {
    RoomStatus(r.id, r.connections.Keys, |r.observers|, r.game.running, IsWaiting(r))
  }

  /** `x` reports some occupied room of the list. */
  ghost predicate ReportsOccupied(rooms: seq<Room>, x: RoomStatus) {
    exists r :: r in rooms && !IsEmpty(r) && x == StatusOf(r)
  }

  /** Some room reported as `x` comes before some room reported as `y`. */
  ghost predicate ReportedBefore(rooms: seq<Room>, x: RoomStatus, y: RoomStatus) {
    exists a, b :: 0 <= a < b < |rooms| && StatusOf(rooms[a]) == x && StatusOf(rooms[b]) == y
  }

  /**
   * `get_status` (main.py:577-592): every room counts in the total; the
   * listing reports exactly the occupied rooms, in registry order.
   */
  function GetStatus(reg: Registry): (s: Status)
    ensures s.totalRooms == |reg.rooms|
    ensures |s.rooms| <= |reg.rooms|
    ensures forall i :: 0 <= i < |s.rooms| ==> ReportsOccupied(reg.rooms, s.rooms[i])
    ensures forall r :: r in reg.rooms && !IsEmpty(r) ==> StatusOf(r) in s.rooms
    ensures forall i :: 0 <= i < |s.rooms| ==> s.rooms[i].players != {}
    ensures forall i :: 0 <= i < |s.rooms| ==>
              (s.rooms[i].waitingForPlayer <==> |s.rooms[i].players| == 1 && !s.rooms[i].gameRunning)
    ensures forall i, j :: 0 <= i < j < |s.rooms| ==> ReportedBefore(reg.rooms, s.rooms[i], s.rooms[j])
  {
    var live := Seqs.Filter(reg.rooms, IsNonEmpty);
    ListingCoversOccupied(reg.rooms, live);
    ListingReportsOccupied(reg.rooms, live);
    ListingInOrder(reg.rooms, live);
    Status(|reg.rooms|, Listing(live))
  }

  /** One status entry per room, in the rooms' order. */
  function Listing(live: seq<Room>): (ss: seq<RoomStatus>)
    ensures |ss| == |live| && forall i :: 0 <= i < |live| ==> ss[i] == StatusOf(live[i])
  {
    seq(|live|, i requires 0 <= i < |live| => StatusOf(live[i]))
  }

  lemma ListingCoversOccupied(rooms: seq<Room>, live: seq<Room>)
    requires live == Seqs.Filter(rooms, IsNonEmpty)
    ensures forall r :: r in rooms && !IsEmpty(r) ==> StatusOf(r) in Listing(live)
  {
    forall r | r in rooms && !IsEmpty(r)
      ensures StatusOf(r) in Listing(live)
    {
      var i :| 0 <= i < |live| && live[i] == r;
      assert Listing(live)[i] == StatusOf(r);
    }
  }

  lemma ListingReportsOccupied(rooms: seq<Room>, live: seq<Room>)
    requires live == Seqs.Filter(rooms, IsNonEmpty)
    ensures forall i :: 0 <= i < |live| ==> ReportsOccupied(rooms, Listing(live)[i])
    ensures forall i :: 0 <= i < |live| ==> Listing(live)[i].players != {}
    ensures forall i :: 0 <= i < |live| ==>
              (Listing(live)[i].waitingForPlayer <==> |Listing(live)[i].players| == 1 && !Listing(live)[i].gameRunning)
  {
    forall i | 0 <= i < |live|
      ensures ReportsOccupied(rooms, Listing(live)[i])
      ensures Listing(live)[i].players != {}
      ensures Listing(live)[i].waitingForPlayer <==> |Listing(live)[i].players| == 1 && !Listing(live)[i].gameRunning
    {
      assert live[i] in live;
      assert |live[i].connections.Keys| == |live[i].connections|;
    }
  }

  lemma ListingInOrder(rooms: seq<Room>, live: seq<Room>)
    requires live == Seqs.Filter(rooms, IsNonEmpty)
    ensures forall i, j :: 0 <= i < j < |live| ==> ReportedBefore(rooms, Listing(live)[i], Listing(live)[j])
  {
    Seqs.FilterInOrder(rooms, IsNonEmpty);
    forall i, j | 0 <= i < j < |live|
      ensures ReportedBefore(rooms, Listing(live)[i], Listing(live)[j])
    {
      assert Seqs.Precedes(rooms, live[i], live[j]);
      var a, b :| 0 <= a < b < |rooms| && rooms[a] == live[i] && rooms[b] == live[j];
      assert StatusOf(rooms[a]) == Listing(live)[i] && StatusOf(rooms[b]) == Listing(live)[j];
    }
  }

  /**
   * Removing the empty rooms does not change what the status lists, and
   * afterwards every room counted in the total is listed.
   */
  lemma CleanupKeepsStatus(reg: Registry)
    ensures GetStatus(CleanupEmptyRooms(reg)).rooms == GetStatus(reg).rooms
    ensures GetStatus(CleanupEmptyRooms(reg)).totalRooms == |GetStatus(reg).rooms|
  {
    Seqs.FilterTwice(reg.rooms, IsNonEmpty);
  }

  /**
   * The lobby half of `broadcast_room_list_to_all_observers`
   * (main.py:484-515): when some game runs, every lobby observer is moved
   * into the first active room and the lobby is emptied.
   */
  function DrainLobby(reg: Registry): (reg': Registry)
    ensures FindActiveRoom(reg).None? || reg.lobby == [] ==> reg' == reg
    ensures FindActiveRoom(reg).Some? && reg.lobby != [] ==>
              var a := FindActiveRoom(reg).value;
              && reg'.lobby == []
              && Lookup(reg'.rooms, a.id) == Some(a.(observers := a.observers + reg.lobby))
              && forall id :: id != a.id ==> Lookup(reg'.rooms, id) == Lookup(reg.rooms, id)
    ensures reg'.lobby == [] <==> reg.lobby == [] || exists x :: x in reg'.rooms && x.game.running
    ensures forall c :: c in reg.lobby ==> c in reg'.lobby || Watched(reg', c)
    ensures Valid(reg) ==> Valid(reg')
    ensures Valid(reg) ==> forall id :: Lookup(reg.rooms, id).Some? && !Lookup(reg.rooms, id).value.game.running ==>
              Lookup(reg'.rooms, id) == Lookup(reg.rooms, id)
  {
    DrainLobbyFacts(reg);
    match FindActiveRoom(reg)
    case None => reg
    case Some(a) =>
      if |reg.lobby| == 0 then reg
      else Registry(Put(reg.rooms, a.(observers := a.observers + reg.lobby)), [])
  }

  /** Some running room has `c` among its observers. */
  predicate Watched(reg: Registry, c: Conn) {
    exists x :: x in reg.rooms && x.game.running && c in x.observers
  }

  lemma DrainLobbyFacts(reg: Registry)
    ensures var reg' := match FindActiveRoom(reg)
                        case None => reg
                        case Some(a) =>
                          if |reg.lobby| == 0 then reg
                          else Registry(Put(reg.rooms, a.(observers := a.observers + reg.lobby)), []);
            && (reg'.lobby == [] <==> reg.lobby == [] || exists x :: x in reg'.rooms && x.game.running)
            && (forall c :: c in reg.lobby ==> c in reg'.lobby || Watched(reg', c))
            && (Valid(reg) ==> forall id :: Lookup(reg.rooms, id).Some? && !Lookup(reg.rooms, id).value.game.running ==>
                  Lookup(reg'.rooms, id) == Lookup(reg.rooms, id))
  {
    match FindActiveRoom(reg)
    case None =>
    case Some(a) =>
      if |reg.lobby| != 0 {
        var reg' := Registry(Put(reg.rooms, a.(observers := a.observers + reg.lobby)), []);
        var x := Lookup(reg'.rooms, a.id).value;
        assert x in reg'.rooms && x.game.running;
        forall c | c in reg.lobby
          ensures Watched(reg', c)
        {
          assert c in x.observers;
        }
        if Valid(reg) {
          forall id | Lookup(reg.rooms, id).Some? && !Lookup(reg.rooms, id).value.game.running
            ensures Lookup(reg'.rooms, id) == Lookup(reg.rooms, id)
          {
            if id == a.id {
              LookupMember(reg.rooms, a);
            }
          }
        }
      }
  }

  /** Where an observer went: the room it joined, or the lobby (`None`). */
  datatype Watching = Watching(registry: Registry, roomId: Option<int>)

  /**
   * The attach step of `observe_game` (main.py:629-661): an observer joins
   * the first active room, or waits in the lobby when no game runs. The
   * bot-versus-bot launch that accompanies the lobby case is not modelled.
   */
  function Observe(reg: Registry, c: Conn): (w: Watching)
    ensures FindActiveRoom(reg).Some? ==>
              var a := FindActiveRoom(reg).value;
              && w.roomId == Some(a.id)
              && Lookup(w.registry.rooms, a.id) == Some(a.(observers := a.observers + [c]))
              && (forall id :: id != a.id ==> Lookup(w.registry.rooms, id) == Lookup(reg.rooms, id))
              && w.registry.lobby == reg.lobby
    ensures FindActiveRoom(reg).None? ==> w.roomId.None? && w.registry == reg.(lobby := reg.lobby + [c])
    ensures Valid(reg) ==> Valid(w.registry)
  {
    match FindActiveRoom(reg)
    case Some(a) => Watching(reg.(rooms := Put(reg.rooms, ConnectObserver(a, c))), Some(a.id))
    case None => Watching(reg.(lobby := reg.lobby + [c]), None)
  }

  /** A lobby observer disconnects (main.py:714-716). */
  function LeaveLobby(reg: Registry, c: Conn): (reg': Registry)
    ensures c in reg.lobby ==> |reg'.lobby| == |reg.lobby| - 1
    ensures c in reg.lobby ==> Seqs.RemovedFirst(reg.lobby, c, reg'.lobby)
    ensures c !in reg.lobby ==> reg' == reg
    ensures forall x :: x in reg'.lobby ==> x in reg.lobby
    ensures reg'.rooms == reg.rooms
  {
    reg.(lobby := Seqs.RemoveFirst(reg.lobby, c))
  }

  /**
   * A player's connection closes (main.py:621-623, 755-757): its room is reset by
   * `disconnect_player`, then every room left without players is removed.
   */
  function PlayerLeft(reg: Registry, id: int, s: Slot, pick: nat): (reg': Registry)
    requires Valid(reg)
    ensures Lookup(reg.rooms, id).Some? ==>
              var r := Lookup(reg.rooms, id).value;
              Lookup(reg'.rooms, id) == if Other(s) in r.connections then Some(DisconnectPlayer(r, s, pick)) else None
    ensures forall j :: j != id ==> Lookup(reg'.rooms, j) == Kept(reg.rooms, j)
    ensures forall r :: r in reg'.rooms ==> !IsEmpty(r)
    ensures reg'.lobby == reg.lobby
    ensures Valid(reg')
  {
    if Lookup(reg.rooms, id).Some? then
      PlayerLeftRoom(reg, id, s, pick);
      PlayerLeftOthers(reg, id, s, pick);
      CleanupEmptyRooms(ResetSeat(reg, id, s, pick))
    else
      PlayerLeftOthers(reg, id, s, pick);
      CleanupEmptyRooms(ResetSeat(reg, id, s, pick))
  }

  lemma PlayerLeftRoom(reg: Registry, id: int, s: Slot, pick: nat)
    requires Valid(reg) && Lookup(reg.rooms, id).Some?
    ensures var reg' := CleanupEmptyRooms(ResetSeat(reg, id, s, pick));
            var r := Lookup(reg.rooms, id).value;
            Lookup(reg'.rooms, id) == if Other(s) in r.connections then Some(DisconnectPlayer(r, s, pick)) else None
  {
    var reg1 := ResetSeat(reg, id, s, pick);
    var reg' := CleanupEmptyRooms(reg1);
    assert Valid(reg1);
    DisconnectEmpties(Lookup(reg.rooms, id).value, s, pick);
    assert Lookup(reg'.rooms, id) == Kept(reg1.rooms, id);
  }

  lemma PlayerLeftOthers(reg: Registry, id: int, s: Slot, pick: nat)
    requires Valid(reg)
    ensures var reg' := CleanupEmptyRooms(ResetSeat(reg, id, s, pick));
            forall j :: j != id ==> Lookup(reg'.rooms, j) == Kept(reg.rooms, j)
  {
    var reg1 := ResetSeat(reg, id, s, pick);
    var reg' := CleanupEmptyRooms(reg1);
    assert Valid(reg1);
    forall j | j != id
      ensures Lookup(reg'.rooms, j) == Kept(reg.rooms, j)
    {
      assert Lookup(reg'.rooms, j) == Kept(reg1.rooms, j);
      assert Lookup(reg1.rooms, j) == Lookup(reg.rooms, j);
    }
  }

  /** `disconnect_player` on the room with this id, if there is one. */
  function ResetSeat(reg: Registry, id: int, s: Slot, pick: nat): (reg': Registry)
    ensures Lookup(reg.rooms, id).Some? ==> Lookup(reg'.rooms, id) == Some(DisconnectPlayer(Lookup(reg.rooms, id).value, s, pick))
    ensures Lookup(reg.rooms, id).None? ==> reg' == reg
    ensures forall j :: j != id ==> Lookup(reg'.rooms, j) == Lookup(reg.rooms, j)
    ensures reg'.lobby == reg.lobby
    ensures Valid(reg) ==> Valid(reg')
  {
    match Lookup(reg.rooms, id)
    case None => reg
    case Some(r) => reg.(rooms := Put(reg.rooms, DisconnectPlayer(r, s, pick)))
  }

  /** True when the player connection `c` holds slot `t` of the room with this id. */
  predicate Seated(reg: Registry, id: int, t: Slot, c: Conn) {
    Lookup(reg.rooms, id).Some? && t in Lookup(reg.rooms, id).value.connections
    && Lookup(reg.rooms, id).value.connections[t] == c
  }

  /**
   * A player's message reaches its room's `handle_message`
   * (main.py:617-620, 288-321). When it starts the game, `start_game`
   * hands the lobby to the first active room (main.py:359-360), so every
   * observer that was waiting in the lobby ends up watching a running game.
   */
  function Deliver(reg: Registry, id: int, s: Slot, msg: Msg, spawned: bool, pick: nat): (reg': Registry)
    requires Valid(reg)
    ensures Valid(reg')
    ensures Lookup(reg.rooms, id).None? ==> reg' == reg
    ensures Lookup(reg.rooms, id).Some? ==>
              var r := Lookup(reg.rooms, id).value;
              var r' := HandleMessage(r, s, msg, spawned, pick);
              && (!Started(r, r') ==> Lookup(reg'.rooms, id) == Some(r') && reg'.lobby == reg.lobby)
              && (!Started(r, r') ==> forall j :: j != id ==> Lookup(reg'.rooms, j) == Lookup(reg.rooms, j))
              && (Started(r, r') ==> reg'.lobby == [])
              && (Started(r, r') ==> forall c :: c in reg.lobby ==> Watched(reg', c))
              && (Started(r, r') ==>
                    var a := FindActiveRoom(reg.(rooms := Put(reg.rooms, r')));
                    && a.Some?
                    && Lookup(reg'.rooms, a.value.id) == Some(a.value.(observers := a.value.observers + reg.lobby))
                    && Lookup(reg'.rooms, id)
                       == Some(if a.value.id == id then r'.(observers := r'.observers + reg.lobby) else r')
                    && forall j :: j != id && j != a.value.id ==> Lookup(reg'.rooms, j) == Lookup(reg.rooms, j))
  {
    match Lookup(reg.rooms, id)
    case None => reg
    case Some(r) => Commit(reg, HandleMessage(r, s, msg, spawned, pick), Started(r, HandleMessage(r, s, msg, spawned, pick)))
  }

  /** The room's game went from idle to running. */
  predicate Started(r: Room, r': Room) {
    !r.game.running && r'.game.running
  }

  /** Stores a room back under its id, then hands the lobby over when asked to. */
  function Commit(reg: Registry, r': Room, drain: bool): (reg': Registry)
    requires Valid(reg) && Lookup(reg.rooms, r'.id).Some?
    ensures Valid(reg')
    ensures !drain ==> Lookup(reg'.rooms, r'.id) == Some(r') && reg'.lobby == reg.lobby
    ensures !drain ==> forall j :: j != r'.id ==> Lookup(reg'.rooms, j) == Lookup(reg.rooms, j)
    ensures drain && r'.game.running ==> reg'.lobby == []
    ensures drain && !r'.game.running ==> Lookup(reg'.rooms, r'.id) == Some(r')
    ensures drain ==> (reg'.lobby == [] <==> reg.lobby == [] || exists x :: x in reg'.rooms && x.game.running)
    ensures forall c :: c in reg.lobby ==> c in reg'.lobby || Watched(reg', c)
    ensures drain ==>
              var a := FindActiveRoom(reg.(rooms := Put(reg.rooms, r')));
              && (r'.game.running ==> a.Some?)
              && (a.Some? ==> Lookup(reg'.rooms, a.value.id) == Some(a.value.(observers := a.value.observers + reg.lobby)))
              && Lookup(reg'.rooms, r'.id)
                 == Some(if a.Some? && a.value.id == r'.id then r'.(observers := r'.observers + reg.lobby) else r')
              && forall j :: j != r'.id && (a.None? || j != a.value.id) ==> Lookup(reg'.rooms, j) == Lookup(reg.rooms, j)
  {
    var reg1 := reg.(rooms := Put(reg.rooms, r'));
    if drain then
      assert Lookup(reg1.rooms, r'.id) == Some(r');
      CommitDrainFacts(reg1, r');
      DrainLobby(reg1)
    else reg1
  }

  /** The first active room of a registry that holds `r'` is `r'` itself when it has `r'`'s id. */
  lemma CommitDrainFacts(reg1: Registry, r': Room)
    requires Valid(reg1) && Lookup(reg1.rooms, r'.id) == Some(r')
    ensures r'.game.running ==> FindActiveRoom(reg1).Some?
    ensures FindActiveRoom(reg1).Some? ==>
              var a := FindActiveRoom(reg1).value;
              && Lookup(reg1.rooms, a.id) == Some(a)
              && (a.id == r'.id ==> a == r')
              && a.(observers := a.observers + []) == a
  {
    if FindActiveRoom(reg1).Some? {
      var a := FindActiveRoom(reg1).value;
      LookupMember(reg1.rooms, a);
      assert a.observers + [] == a.observers;
    }
  }

  /**
   * One tick of a room's `game_loop` (main.py:362-379): `Tick` on the
   * room; when its game ends, the lobby goes to the first game still
   * running, if any (main.py:375-377).
   */
  function TickRoom(reg: Registry, id: int, pick1: nat, pick2: nat): (reg': Registry)
    requires Valid(reg)
    ensures Valid(reg')
    ensures Lookup(reg.rooms, id).None? ==> reg' == reg
    ensures Lookup(reg.rooms, id).Some? ==>
              var r := Lookup(reg.rooms, id).value;
              && Lookup(reg'.rooms, id) == Some(Tick(r, pick1, pick2))
              && (Tick(r, pick1, pick2).game.running ==> reg'.lobby == reg.lobby)
              && (r.game.running && !Tick(r, pick1, pick2).game.running ==>
                    (reg'.lobby == [] <==> reg.lobby == [] || exists x :: x in reg'.rooms && x.game.running))
              && (forall c :: c in reg.lobby ==> c in reg'.lobby || Watched(reg', c))
              && (r.game.running && !Tick(r, pick1, pick2).game.running ==>
                    var a := FindActiveRoom(reg.(rooms := Put(reg.rooms, Tick(r, pick1, pick2))));
                    && (a.Some? ==> Lookup(reg'.rooms, a.value.id) == Some(a.value.(observers := a.value.observers + reg.lobby)))
                    && forall j :: j != id && (a.None? || j != a.value.id) ==> Lookup(reg'.rooms, j) == Lookup(reg.rooms, j))
              && (!(r.game.running && !Tick(r, pick1, pick2).game.running) ==>
                    forall j :: j != id ==> Lookup(reg'.rooms, j) == Lookup(reg.rooms, j))
  {
    match Lookup(reg.rooms, id)
    case None => reg
    case Some(r) => Commit(reg, Tick(r, pick1, pick2), r.game.running && !Tick(r, pick1, pick2).game.running)
  }

  /** Outcome of the legacy endpoint: a seat, or the close code it sends. */
  datatype Admission = Admitted(registry: Registry, seat: Seat) | Refused(code: int)

  /** Close code for an id other than 1 or 2 (main.py:726-728). */
  const InvalidPlayerId: int := 4000
  /** Close code when no room can be created (main.py:604-606, 737-739). */
  const ServerFull: int := 4002

  /**
   * The legacy `/ws/{player_id}` endpoint (main.py:723-749): only ids 1 and
   * 2 are accepted; 2 joins the first waiting room at its free slot if
   * there is one; otherwise (and always for 1) a new room is created and
   * the caller takes slot 1, or is turned away when all ids are taken.
   */
  function LegacyJoin(reg: Registry, requested: int, c: Conn, pick: nat): (a: Admission)
    requires Valid(reg)
    ensures requested != 1 && requested != 2 ==> a == Refused(InvalidPlayerId)
    ensures requested == 2 && FindWaitingRoom(reg).Some? ==>
              var w := FindWaitingRoom(reg).value;
              && a.Admitted?
              && a.seat.roomId == w.id
              && a.seat.slot !in w.connections
              && Lookup(a.registry.rooms, w.id) == Some(ConnectPlayer(w, a.seat.slot, c))
              && (forall j :: j != w.id ==> Lookup(a.registry.rooms, j) == Lookup(reg.rooms, j))
    ensures requested == 1 || (requested == 2 && FindWaitingRoom(reg).None?) ==>
              && (CreateRoom(reg, pick).id.None? ==> a == Refused(ServerFull))
              && (CreateRoom(reg, pick).id.Some? ==>
                    var k := CreateRoom(reg, pick).id.value;
                    && a.Admitted? && a.seat == Seat(k, 1)
                    && Lookup(a.registry.rooms, k) == Some(ConnectPlayer(NewRoom(k, pick), 1, c))
                    && (forall j :: j != k ==> Lookup(a.registry.rooms, j) == Lookup(reg.rooms, j)))
    ensures a.Admitted? ==> Valid(a.registry) && a.registry.lobby == reg.lobby
  {
    if requested != 1 && requested != 2 then Refused(InvalidPlayerId)
    else if requested == 2 && FindWaitingRoom(reg).Some? then SecondSeat(reg, FindWaitingRoom(reg).value, c)
    else FirstSeat(reg, c, pick)
  }

  /** The legacy endpoint's join of a waiting room. */
  function SecondSeat(reg: Registry, w: Room, c: Conn): (a: Admission)
    requires Valid(reg) && w in reg.rooms && IsWaiting(w)
    ensures a.Admitted? && a.seat.roomId == w.id && a.seat.slot !in w.connections
    ensures a.Admitted? ==> Lookup(a.registry.rooms, w.id) == Some(ConnectPlayer(w, a.seat.slot, c))
    ensures a.Admitted? ==> forall j :: j != w.id ==> Lookup(a.registry.rooms, j) == Lookup(reg.rooms, j)
    ensures a.Admitted? ==> Valid(a.registry) && a.registry.lobby == reg.lobby
  {
    SlotsBound(w);
    LookupMember(reg.rooms, w);
    Admitted(Attach(reg, w.id, AvailableSlot(w).value, c), Seat(w.id, AvailableSlot(w).value))
  }

  /** The legacy endpoint's new room, taken at slot 1. */
  function FirstSeat(reg: Registry, c: Conn, pick: nat): (a: Admission)
    requires Valid(reg)
    ensures CreateRoom(reg, pick).id.None? ==> a == Refused(ServerFull)
    ensures CreateRoom(reg, pick).id.Some? ==>
              var k := CreateRoom(reg, pick).id.value;
              && a.Admitted? && a.seat == Seat(k, 1)
              && Lookup(a.registry.rooms, k) == Some(ConnectPlayer(NewRoom(k, pick), 1, c))
              && (forall j :: j != k ==> Lookup(a.registry.rooms, j) == Lookup(reg.rooms, j))
    ensures a.Admitted? ==> Valid(a.registry) && a.registry.lobby == reg.lobby
  {
    var made := CreateRoom(reg, pick);
    if made.id.None? then Refused(ServerFull)
    else
      var k := made.id.value;
      var reg2 := Attach(made.registry, k, 1, c);
      assert Lookup(reg2.rooms, k) == Some(ConnectPlayer(NewRoom(k, pick), 1, c));
      assert forall j :: j != k ==> Lookup(reg2.rooms, j) == Lookup(reg.rooms, j);
      Admitted(reg2, Seat(k, 1))
  }

  /** `connect_player` on the room with this id (main.py:239-243). */
  function Attach(reg: Registry, id: int, t: Slot, c: Conn): (reg': Registry)
    requires Lookup(reg.rooms, id).Some?
    ensures Lookup(reg'.rooms, id) == Some(ConnectPlayer(Lookup(reg.rooms, id).value, t, c))
    ensures forall j :: j != id ==> Lookup(reg'.rooms, j) == Lookup(reg.rooms, j)
    ensures reg'.lobby == reg.lobby
    ensures Valid(reg) ==> Valid(reg')
  {
    reg.(rooms := Put(reg.rooms, ConnectPlayer(Lookup(reg.rooms, id).value, t, c)))
  }

  /**
   * As written, `join_game` looks a room up under the matchmaking lock but
   * attaches the player only after the lock is released (main.py:419-436,
   * 598-608). A room that `create_room` has just made is still empty in
   * that window, so a second lookup treats its id as free again, replaces
   * the room with another fresh one and hands out the same seat.
   */
  lemma SecondLookupBeforeAttach(reg: Registry, pick1: nat, pick2: nat)
    requires Valid(reg)
    requires FindWaitingRoom(reg).None?
    requires FindOrCreateRoom(reg, pick1).seat.Some?
    ensures FindOrCreateRoom(FindOrCreateRoom(reg, pick1).registry, pick2).seat == FindOrCreateRoom(reg, pick1).seat
  {
    var k := CreateRoom(reg, pick1).id.value;
    var reg1 := FindOrCreateRoom(reg, pick1).registry;
    CreateKeepsNoneWaiting(reg, pick1);
    assert Seqs.FirstIndex(reg1.rooms, IsWaiting).None?;
    EmptyRoomStaysLowest(reg.rooms, reg1.rooms, k);
  }

  lemma CreateKeepsNoneWaiting(reg: Registry, pick: nat)
    requires forall i :: 0 <= i < |reg.rooms| ==> !IsWaiting(reg.rooms[i])
    ensures var rooms := CreateRoom(reg, pick).registry.rooms;
            forall i :: 0 <= i < |rooms| ==> !IsWaiting(rooms[i])
  {
    match LowestReusable(reg.rooms, 1)
    case None =>
    case Some(k) =>
      var nr := NewRoom(k, pick);
      assert IsEmpty(nr);
      var rooms := Put(reg.rooms, nr);
      forall i | 0 <= i < |rooms|
        ensures !IsWaiting(rooms[i])
      {
        assert rooms[i] in rooms;
        assert rooms[i] == nr || rooms[i] in reg.rooms;
      }
  }

  lemma EmptyRoomStaysLowest(rooms: seq<Room>, rooms': seq<Room>, k: int)
    requires LowestReusable(rooms, 1) == Some(k)
    requires Reusable(rooms', k)
    requires forall j :: j != k ==> Lookup(rooms', j) == Lookup(rooms, j)
    ensures LowestReusable(rooms', 1) == Some(k)
  {
    forall j | 1 <= j < k
      ensures !Reusable(rooms', j)
    {
      assert !Reusable(rooms, j);
      assert Lookup(rooms', j) == Lookup(rooms, j);
    }
  }

  /** The same race on an empty server: both connections are told room 1, slot 1. */
  lemma TwoJoinsOnEmptyServer(pick1: nat, pick2: nat)
    ensures FindOrCreateRoom(Registry([], []), pick1).seat == Some(Seat(1, 1))
    ensures FindOrCreateRoom(FindOrCreateRoom(Registry([], []), pick1).registry, pick2).seat == Some(Seat(1, 1))
  {
    var reg := Registry([], []);
    assert Reusable(reg.rooms, 1);
    SecondLookupBeforeAttach(reg, pick1, pick2);
  }

  /**
   * `join_game` with the lookup and the attach in one step, which is what
   * the matchmaking lock is meant to guarantee: the seat handed out is the
   * one `find_or_create_room` picks, the player is attached to it, and
   * nobody already seated loses a seat.
   */
  function JoinRoom(reg: Registry, c: Conn, pick: nat): (m: Matched)
    requires Valid(reg)
    ensures m.seat == FindOrCreateRoom(reg, pick).seat
    ensures m.seat.None? ==> m.registry == reg
    ensures m.seat.Some? ==> Seated(m.registry, m.seat.value.roomId, m.seat.value.slot, c)
    ensures forall id, t, x :: Seated(reg, id, t, x) ==> Seated(m.registry, id, t, x)
    ensures Valid(m.registry) && m.registry.lobby == reg.lobby
  {
    var f := FindOrCreateRoom(reg, pick);
    match f.seat
    case None => f
    case Some(st) =>
      FreeSeatFound(reg, pick);
      var reg' := Attach(f.registry, st.roomId, st.slot, c);
      AttachKeepsSeats(f.registry, reg', st, c);
      Matched(reg', f.seat)
  }

  /** The seat `find_or_create_room` hands out is free, and the lookup itself unseats nobody. */
  lemma FreeSeatFound(reg: Registry, pick: nat)
    requires Valid(reg) && FindOrCreateRoom(reg, pick).seat.Some?
    ensures var f := FindOrCreateRoom(reg, pick);
            var st := f.seat.value;
            && Lookup(f.registry.rooms, st.roomId).Some?
            && st.slot !in Lookup(f.registry.rooms, st.roomId).value.connections
            && forall id, t, x :: Seated(reg, id, t, x) ==> Seated(f.registry, id, t, x)
  {
    var f := FindOrCreateRoom(reg, pick);
    match Seqs.FirstIndex(reg.rooms, IsWaiting)
    case Some(i) =>
      LookupMember(reg.rooms, reg.rooms[i]);
    case None =>
      var k := CreateRoom(reg, pick).id.value;
      forall id, t, x | Seated(reg, id, t, x)
        ensures Seated(f.registry, id, t, x)
      {
        if id == k {
          assert Reusable(reg.rooms, k);
        }
      }
  }

  lemma AttachKeepsSeats(reg: Registry, reg': Registry, st: Seat, c: Conn)
    requires Lookup(reg.rooms, st.roomId).Some? && st.slot !in Lookup(reg.rooms, st.roomId).value.connections
    requires reg' == Attach(reg, st.roomId, st.slot, c)
    ensures Seated(reg', st.roomId, st.slot, c)
    ensures forall id, t, x :: Seated(reg, id, t, x) ==> Seated(reg', id, t, x)
  {
  }

  /** With the atomic join, two different players never share a seat. */
  lemma JoinsGetDistinctSeats(reg: Registry, c1: Conn, c2: Conn, pick1: nat, pick2: nat)
    requires Valid(reg) && c1 != c2
    requires JoinRoom(reg, c1, pick1).seat.Some?
    requires JoinRoom(JoinRoom(reg, c1, pick1).registry, c2, pick2).seat.Some?
    ensures JoinRoom(JoinRoom(reg, c1, pick1).registry, c2, pick2).seat != JoinRoom(reg, c1, pick1).seat
  {
    var m1 := JoinRoom(reg, c1, pick1);
    var m2 := JoinRoom(m1.registry, c2, pick2);
    var st := m1.seat.value;
    assert Seated(m2.registry, st.roomId, st.slot, c1);
  }

  /** Number of players seated across the rooms. */
  function SeatCount(rooms: seq<Room>): nat {
    if |rooms| == 0 then 0 else |rooms[0].connections| + SeatCount(rooms[1..])
  }

  lemma {:induction false} SeatCountUpdate(rooms: seq<Room>, i: int, x: Room)
    requires 0 <= i < |rooms|
    ensures SeatCount(rooms[i := x]) == SeatCount(rooms) - |rooms[i].connections| + |x.connections|
  {
    if i > 0 {
      assert rooms[i := x][1..] == rooms[1..][i - 1 := x];
      SeatCountUpdate(rooms[1..], i - 1, x);
    }
  }

  lemma {:induction false} SeatCountAppend(rooms: seq<Room>, x: Room)
    ensures SeatCount(rooms + [x]) == SeatCount(rooms) + |x.connections|
  {
    if |rooms| > 0 {
      assert (rooms + [x])[1..] == rooms[1..] + [x];
      SeatCountAppend(rooms[1..], x);
    }
  }

  lemma {:induction false} SeatCountOfFullRooms(rooms: seq<Room>)
    requires forall i :: 0 <= i < |rooms| ==> |rooms[i].connections| == 2
    ensures SeatCount(rooms) == 2 * |rooms|
  {
    if |rooms| > 0 {
      SeatCountOfFullRooms(rooms[1..]);
    }
  }

  /**
   * A registry built by joins alone: no game has started, every room has
   * one or two players, and at most one room is short of a player.
   */
  predicate Packed(reg: Registry) {
    && Valid(reg)
    && (forall i :: 0 <= i < |reg.rooms| ==> !reg.rooms[i].game.running)
    && (forall i :: 0 <= i < |reg.rooms| ==> 1 <= |reg.rooms[i].connections| <= 2)
    && 2 * |reg.rooms| <= SeatCount(reg.rooms) + 1
  }

  /** A join seats one player and keeps the rooms packed. */
  lemma JoinKeepsPacked(reg: Registry, c: Conn, pick: nat)
    requires Packed(reg)
    ensures Packed(JoinRoom(reg, c, pick).registry)
    ensures SeatCount(JoinRoom(reg, c, pick).registry.rooms) <= SeatCount(reg.rooms) + 1
  {
    match Seqs.FirstIndex(reg.rooms, IsWaiting)
    case Some(i) => JoinWaitingKeepsPacked(reg, c, pick, i);
    case None => JoinFullKeepsPacked(reg, c, pick);
  }

  lemma JoinWaitingKeepsPacked(reg: Registry, c: Conn, pick: nat, i: nat)
    requires Packed(reg) && Seqs.FirstIndex(reg.rooms, IsWaiting) == Some(i)
    ensures Packed(JoinRoom(reg, c, pick).registry)
    ensures SeatCount(JoinRoom(reg, c, pick).registry.rooms) == SeatCount(reg.rooms) + 1
  {
    var rooms' := JoinRoom(reg, c, pick).registry.rooms;
    var w' := JoinFillsRoom(reg, c, pick, i);
    SeatCountUpdate(reg.rooms, i, w');
    assert |reg.rooms[i].connections| == 1;
    forall j | 0 <= j < |rooms'|
      ensures !rooms'[j].game.running && 1 <= |rooms'[j].connections| <= 2
    {
      if j != i {
        assert rooms'[j] == reg.rooms[j];
      }
    }
  }

  lemma JoinFullKeepsPacked(reg: Registry, c: Conn, pick: nat)
    requires Packed(reg) && Seqs.FirstIndex(reg.rooms, IsWaiting).None?
    ensures Packed(JoinRoom(reg, c, pick).registry)
    ensures SeatCount(JoinRoom(reg, c, pick).registry.rooms) <= SeatCount(reg.rooms) + 1
  {
    NoneWaitingMeansFull(reg.rooms);
    SeatCountOfFullRooms(reg.rooms);
    if JoinRoom(reg, c, pick).seat.Some? {
      var nr' := JoinAppendsRoom(reg, c, pick);
      PackedAppend(reg, nr', JoinRoom(reg, c, pick).registry);
    }
  }

  lemma NoneWaitingMeansFull(rooms: seq<Room>)
    requires forall j :: 0 <= j < |rooms| ==> !rooms[j].game.running && 1 <= |rooms[j].connections| <= 2
    requires Seqs.FirstIndex(rooms, IsWaiting).None?
    ensures forall j :: 0 <= j < |rooms| ==> |rooms[j].connections| == 2
  {
    forall j | 0 <= j < |rooms|
      ensures |rooms[j].connections| == 2
    {
      assert !IsWaiting(rooms[j]);
    }
  }

  lemma PackedAppend(reg: Registry, nr': Room, reg': Registry)
    requires Packed(reg) && Valid(reg')
    requires SeatCount(reg.rooms) == 2 * |reg.rooms|
    requires reg'.rooms == reg.rooms + [nr'] && |nr'.connections| == 1 && !nr'.game.running
    ensures Packed(reg') && SeatCount(reg'.rooms) == SeatCount(reg.rooms) + 1
  {
    SeatCountAppend(reg.rooms, nr');
    forall j | 0 <= j < |reg'.rooms|
      ensures !reg'.rooms[j].game.running && 1 <= |reg'.rooms[j].connections| <= 2
    {
      if j < |reg.rooms| {
        assert reg'.rooms[j] == reg.rooms[j];
      }
    }
  }

  /** A join that finds the waiting room `i` fills it in place. */
  lemma JoinFillsRoom(reg: Registry, c: Conn, pick: nat, i: nat) returns (w': Room)
    requires Valid(reg) && Seqs.FirstIndex(reg.rooms, IsWaiting) == Some(i)
    ensures JoinRoom(reg, c, pick).registry.rooms == reg.rooms[i := w']
    ensures |w'.connections| == 2 && !w'.game.running
  {
    var w := reg.rooms[i];
    var st := JoinRoom(reg, c, pick).seat.value;
    FindDistinct(reg.rooms, i);
    w' := ConnectPlayer(w, st.slot, c);
    assert st.slot !in w.connections;
  }

  /** With every room full, a join appends a room holding just the newcomer. */
  lemma JoinAppendsRoom(reg: Registry, c: Conn, pick: nat) returns (nr': Room)
    requires Valid(reg) && Seqs.FirstIndex(reg.rooms, IsWaiting).None?
    requires forall j :: 0 <= j < |reg.rooms| ==> |reg.rooms[j].connections| == 2
    requires JoinRoom(reg, c, pick).seat.Some?
    ensures JoinRoom(reg, c, pick).registry.rooms == reg.rooms + [nr']
    ensures |nr'.connections| == 1 && !nr'.game.running
  {
    var k := CreateRoom(reg, pick).id.value;
    var nr := CreatedAtEnd(reg, pick);
    JoinAttachesCreated(reg, c, pick);
    nr' := ConnectPlayer(nr, 1, c);
    AttachLast(reg.rooms, nr, reg.lobby, c);
  }

  lemma CreatedAtEnd(reg: Registry, pick: nat) returns (nr: Room)
    requires Valid(reg) && CreateRoom(reg, pick).id.Some?
    requires forall j :: 0 <= j < |reg.rooms| ==> |reg.rooms[j].connections| == 2
    ensures nr == NewRoom(CreateRoom(reg, pick).id.value, pick)
    ensures Lookup(reg.rooms, nr.id).None?
    ensures CreateRoom(reg, pick).registry.rooms == reg.rooms + [nr]
  {
    var k := CreateRoom(reg, pick).id.value;
    assert Lookup(reg.rooms, k).None?;
    nr := NewRoom(k, pick);
  }

  lemma JoinAttachesCreated(reg: Registry, c: Conn, pick: nat)
    requires Valid(reg) && Seqs.FirstIndex(reg.rooms, IsWaiting).None?
    requires CreateRoom(reg, pick).id.Some?
    ensures JoinRoom(reg, c, pick).registry == Attach(CreateRoom(reg, pick).registry, CreateRoom(reg, pick).id.value, 1, c)
  {
  }

  lemma AttachLast(rooms: seq<Room>, nr: Room, lobby: seq<Conn>, c: Conn)
    requires Lookup(rooms, nr.id).None?
    ensures Lookup(rooms + [nr], nr.id) == Some(nr)
    ensures Attach(Registry(rooms + [nr], lobby), nr.id, 1, c).rooms == rooms + [ConnectPlayer(nr, 1, c)]
  {
    FindFirstMatch(rooms + [nr], nr.id, |rooms|);
    assert (rooms + [nr])[|rooms| := ConnectPlayer(nr, 1, c)] == rooms + [ConnectPlayer(nr, 1, c)];
  }

  /** Players arriving one after another through the atomic join. */
  function JoinAll(reg: Registry, cs: seq<Conn>, pick: nat): (reg': Registry)
    requires Valid(reg)
    ensures Valid(reg')
    decreases |cs|
  {
    if |cs| == 0 then reg else JoinAll(JoinRoom(reg, cs[0], pick).registry, cs[1..], pick)
  }

  lemma {:induction false} JoinAllKeepsPacked(reg: Registry, cs: seq<Conn>, pick: nat)
    requires Packed(reg)
    ensures Packed(JoinAll(reg, cs, pick))
    ensures SeatCount(JoinAll(reg, cs, pick).rooms) <= SeatCount(reg.rooms) + |cs|
    decreases |cs|
  {
    if |cs| > 0 {
      JoinKeepsPacked(reg, cs[0], pick);
      JoinAllKeepsPacked(JoinRoom(reg, cs[0], pick).registry, cs[1..], pick);
    }
  }

  /** N players joining an empty server occupy at most ceil(N/2) rooms. */
  lemma JoinsPairUp(cs: seq<Conn>, pick: nat)
    ensures 2 * |JoinAll(Registry([], []), cs, pick).rooms| <= |cs| + 1
  {
    JoinAllKeepsPacked(Registry([], []), cs, pick);
  }

  /**
   * Leaving mid-match forfeits the session (main.py:258-270, 621-623):
   * player 1 drops out of a running game at 2-1; the room survives with
   * player 2 alone, the score is back to 0-0 and no game runs.
   */
  lemma LeaverForfeitsSession(reg: Registry, id: int, pick: nat)
    requires Valid(reg) && Lookup(reg.rooms, id).Some?
    requires var r := Lookup(reg.rooms, id).value;
             1 in r.connections && 2 in r.connections && r.game.running && r.wins == Pair(2, 1)
    ensures var after := Lookup(PlayerLeft(reg, id, 1, pick).rooms, id);
            && after.Some? && after.value.wins == Pair(0, 0) && !after.value.game.running
            && 1 !in after.value.connections && 2 in after.value.connections
  {
    var r' := PartnerWaits(reg, id, 1, pick);
    assert 2 in r'.connections;
  }

  /**
   * After such a departure, when no other room waits for a player, the
   * next join is seated in the vacated slot 1 of that same room.
   */
  lemma NextJoinTakesVacatedSeat(reg: Registry, id: int, pick1: nat, pick2: nat)
    requires Valid(reg) && Lookup(reg.rooms, id).Some?
    requires var r := Lookup(reg.rooms, id).value; 1 in r.connections && 2 in r.connections
    requires forall x :: x in reg.rooms && x.id != id ==> !IsWaiting(x)
    ensures FindOrCreateRoom(PlayerLeft(reg, id, 1, pick1), pick2).seat == Some(Seat(id, 1))
  {
    var reg' := PlayerLeft(reg, id, 1, pick1);
    var r' := PartnerWaits(reg, id, 1, pick1);
    OthersStillNotWaiting(reg, id, 1, pick1);
    assert Valid(reg');
    var st := OnlyWaitingRoomIsFound(reg', id, pick2);
    assert st.slot != 2;
    assert st == Seat(id, 1);
  }

  /** When one player leaves a full room, the room stays with the other one, waiting and reset. */
  lemma PartnerWaits(reg: Registry, id: int, s: Slot, pick: nat) returns (r': Room)
    requires Valid(reg) && Lookup(reg.rooms, id).Some? && Other(s) in Lookup(reg.rooms, id).value.connections
    ensures r' == DisconnectPlayer(Lookup(reg.rooms, id).value, s, pick)
    ensures Lookup(PlayerLeft(reg, id, s, pick).rooms, id) == Some(r')
    ensures IsWaiting(r') && r'.wins == Pair(0, 0) && !r'.game.running
    ensures s !in r'.connections && Other(s) in r'.connections
  {
    r' := DisconnectPlayer(Lookup(reg.rooms, id).value, s, pick);
    DisconnectEmpties(Lookup(reg.rooms, id).value, s, pick);
  }

  lemma OthersStillNotWaiting(reg: Registry, id: int, s: Slot, pick: nat)
    requires Valid(reg)
    requires forall x :: x in reg.rooms && x.id != id ==> !IsWaiting(x)
    ensures forall x :: x in PlayerLeft(reg, id, s, pick).rooms && x.id != id ==> !IsWaiting(x)
  {
    var reg' := PlayerLeft(reg, id, s, pick);
    forall x | x in reg'.rooms && x.id != id
      ensures !IsWaiting(x)
    {
      LookupMember(reg'.rooms, x);
      assert Lookup(reg'.rooms, x.id) == Kept(reg.rooms, x.id);
    }
  }

  /** When one room alone waits for a player, the lookup seats the newcomer there. */
  lemma OnlyWaitingRoomIsFound(reg: Registry, id: int, pick: nat) returns (st: Seat)
    requires Valid(reg) && Lookup(reg.rooms, id).Some? && IsWaiting(Lookup(reg.rooms, id).value)
    requires forall x :: x in reg.rooms && x.id != id ==> !IsWaiting(x)
    ensures FindOrCreateRoom(reg, pick).seat == Some(st)
    ensures st.roomId == id && st.slot !in Lookup(reg.rooms, id).value.connections
  {
    st := FindOrCreateRoom(reg, pick).seat.value;
    var w := Lookup(reg.rooms, id).value;
    var i :| 0 <= i < |reg.rooms| && reg.rooms[i] == w;
    var f := Seqs.FirstIndex(reg.rooms, IsWaiting).value;
    assert reg.rooms[f] in reg.rooms;
    LookupMember(reg.rooms, reg.rooms[f]);
  }

  /**
   * An observer who arrives while no game runs waits in the lobby
   * (main.py:631-651); when a message then starts a game, the observer is
   * handed to that game's room (main.py:359-360, 484-515).
   */
  lemma LobbyWatchesFirstGame(reg: Registry, c: Conn, id: int, s: Slot, msg: Msg, spawned: bool, pick: nat)
    requires Valid(reg) && FindActiveRoom(reg).None?
    requires Lookup(reg.rooms, id).Some?
    requires HandleMessage(Lookup(reg.rooms, id).value, s, msg, spawned, pick).game.running
    ensures Observe(reg, c).roomId.None?
    ensures var reg2 := Deliver(Observe(reg, c).registry, id, s, msg, spawned, pick);
            && reg2.lobby == []
            && Lookup(reg2.rooms, id).Some?
            && c in Lookup(reg2.rooms, id).value.observers
  {
    var reg1 := Observe(reg, c).registry;
    assert reg1 == reg.(lobby := reg.lobby + [c]);
    var r' := HandleMessage(Lookup(reg.rooms, id).value, s, msg, spawned, pick);
    var regP := reg1.(rooms := Put(reg1.rooms, r'));
    StartedRoomIsFirstActive(reg1, r');
    assert Deliver(reg1, id, s, msg, spawned, pick) == DrainLobby(regP);
    assert c in reg1.lobby;
  }

  /** In a registry where nothing runs, a room whose game has just started is the first active one. */
  lemma StartedRoomIsFirstActive(reg: Registry, r': Room)
    requires forall x :: x in reg.rooms ==> !x.game.running
    requires r'.game.running
    ensures FindActiveRoom(reg.(rooms := Put(reg.rooms, r'))) == Some(r')
  {
    var regP := reg.(rooms := Put(reg.rooms, r'));
    var a := FindActiveRoom(regP).value;
    assert a in regP.rooms;
    assert a == r' || a in reg.rooms;
  }
}
