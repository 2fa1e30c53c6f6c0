/** `agrupar_por_habitacion`: the records grouped by room (first appearance
    order, passengers in input order), and the rooms grouped by floor; rooms on no
    floor are dropped. */
module Grouping {
  import opened Strings
  import opened Records
  import opened Floors

  /** `{'room': hab, 'pax_list': regs}` */
  datatype RoomGroup = RoomGroup(room: string, paxList: seq<Record>)

  /** One entry `piso: [room groups]` of `distribuidos`, a dict kept in insertion
      order, as an association list. */
  datatype FloorGroups = FloorGroups(floor: string, rooms: seq<RoomGroup>)

  /** `habitaciones_map.items()`: each room with its records. */
  function RoomGroups(recs: seq<Record>): (gs: seq<RoomGroup>)
    ensures |gs| == |Rooms(recs)|
    ensures forall i :: 0 <= i < |gs| ==> gs[i] == RoomGroup(Rooms(recs)[i], PaxOf(recs, Rooms(recs)[i]))
  {
    var hs := Rooms(recs);
    seq(|hs|, i requires 0 <= i < |hs| => RoomGroup(hs[i], PaxOf(recs, hs[i])))
  }

  /** Where floor `f` sits in `d`, if it has an entry. */
  function FloorIndex(d: seq<FloorGroups>, f: string): (r: Option<nat>)
    ensures r.Some? ==> r.value < |d| && d[r.value].floor == f
    ensures r.None? <==> forall a :: 0 <= a < |d| ==> d[a].floor != f
  {
    if d == [] then None
    else if d[0].floor == f then Some(0)
    else match FloorIndex(d[1..], f)
      case None => None
      case Some(k) => Some(k + 1)
  }

  /** `distribuidos[piso].append(g)`, creating the entry first if need be. */
  function AddToFloor(d: seq<FloorGroups>, f: string, g: RoomGroup): seq<FloorGroups> {
    match FloorIndex(d, f)
    case Some(k) => d[k := FloorGroups(f, d[k].rooms + [g])]
    case None => d + [FloorGroups(f, [g])]
  }

  /** The second loop of `agrupar_por_habitacion` over room groups `gs`. */
  function Bucket(gs: seq<RoomGroup>): seq<FloorGroups> {
    if gs == [] then []
    else
      var d := Bucket(gs[..|gs| - 1]);
      var g := gs[|gs| - 1];
      match PisoForRoom(g.room)
      case None => d
      case Some(f) => AddToFloor(d, f, g)
  }

  /** What `agrupar_por_habitacion` returns. */
  function Distribution(recs: seq<Record>): seq<FloorGroups> {
    Bucket(RoomGroups(recs))
  }

  /** The groups of `gs` whose room is on floor `f`, in order. */
  function GroupsOn(gs: seq<RoomGroup>, f: string): (r: seq<RoomGroup>)
    ensures forall g :: g in r <==> g in gs && PisoForRoom(g.room) == Some(f)
  {
    if gs == [] then []
    else
      var prev := GroupsOn(gs[..|gs| - 1], f);
      var g := gs[|gs| - 1];
      assert gs == gs[..|gs| - 1] + [g];
      if PisoForRoom(g.room) == Some(f) then prev + [g] else prev
  }

  /** The rooms filed under floor `f` in `d`, none if it has no entry. */
  function RoomsOf(d: seq<FloorGroups>, f: string): seq<RoomGroup> {
    match FloorIndex(d, f)
    case None => []
    case Some(k) => d[k].rooms
  }

  ghost predicate DistinctFloors(d: seq<FloorGroups>) {
    forall a, b :: 0 <= a < b < |d| ==> d[a].floor != d[b].floor
  }

  ghost predicate NoEmptyFloor(d: seq<FloorGroups>) {
    forall a :: 0 <= a < |d| ==> d[a].rooms != []
  }

  /** The room map after walking `recs`: its keys in insertion order, each with
      the room's records. */
  ghost predicate RoomMap(recs: seq<Record>, keys: seq<string>, m: map<string, seq<Record>>) {
    keys == Rooms(recs) && m.Keys == RoomSet(recs) && forall h :: h in m ==> m[h] == PaxOf(recs, h)
  }

  /** One step of the first loop keeps the room map exact. */
  lemma RoomMapStep(prev: seq<Record>, x: Record, keys: seq<string>, m: map<string, seq<Record>>)
    requires RoomMap(prev, keys, m)
    ensures x.hab in m ==> RoomMap(prev + [x], keys, m[x.hab := m[x.hab] + [x]])
    ensures x.hab !in m ==> RoomMap(prev + [x], keys + [x.hab], m[x.hab := [x]])
  {
    RoomSetIsRooms(prev);
    RoomsSnoc(prev, x);
    RoomSetSnoc(prev, x);
    var m' := if x.hab in m then m[x.hab := m[x.hab] + [x]] else m[x.hab := [x]];
    forall h | h in m'
      ensures m'[h] == PaxOf(prev + [x], h)
    {
      PaxOfSnoc(prev, x, h);
      if h == x.hab && x.hab !in m {
        PaxOfAbsent(prev, h);
      }
    }
  }

  /** The second loop's body on a floor that has an entry: append to it. */
  lemma FiledExisting(d: seq<FloorGroups>, f: string, g: RoomGroup, k: nat)
    requires FloorIndex(d, f) == Some(k)
    ensures d[k := FloorGroups(f, d[k].rooms + [g])] == AddToFloor(d, f, g)
  {
  }

  /** The second loop's body on a floor without an entry: create it empty, then
      append. */
  lemma FiledNew(d: seq<FloorGroups>, f: string, g: RoomGroup)
    requires FloorIndex(d, f).None?
    ensures (d + [FloorGroups(f, [])])[|d| := FloorGroups(f, [] + [g])] == AddToFloor(d, f, g)
  {
    var e: seq<RoomGroup> := [];
    assert e + [g] == [g];
    var lhs := (d + [FloorGroups(f, e)])[|d| := FloorGroups(f, e + [g])];
    assert forall a :: 0 <= a < |d| ==> lhs[a] == d[a];
    assert lhs == d + [FloorGroups(f, [g])];
  }

  lemma BucketStep(gs: seq<RoomGroup>, j: nat)
    requires j < |gs|
    ensures PisoForRoom(gs[j].room).None? ==> Bucket(gs[..j + 1]) == Bucket(gs[..j])
    ensures PisoForRoom(gs[j].room).Some? ==>
              Bucket(gs[..j + 1]) == AddToFloor(Bucket(gs[..j]), PisoForRoom(gs[j].room).value, gs[j])
  {
    assert gs[..j + 1][..j] == gs[..j];
  }

  lemma GroupsOnSnoc(prev: seq<RoomGroup>, g: RoomGroup, f: string)
    ensures GroupsOn(prev + [g], f) == if PisoForRoom(g.room) == Some(f) then GroupsOn(prev, f) + [g] else GroupsOn(prev, f)
  {
    assert (prev + [g])[..|prev|] == prev;
  }

  /** Each room's group is among the room groups. */
  lemma RoomGroupOf(recs: seq<Record>, h: string) returns (j: nat)
    requires h in Rooms(recs)
    ensures j < |RoomGroups(recs)| && RoomGroups(recs)[j] == RoomGroup(h, PaxOf(recs, h))
  {
    j :| 0 <= j < |Rooms(recs)| && Rooms(recs)[j] == h;
  }

  // ---------------------------------------------------------------- the method

  /** The first loop of `agrupar_por_habitacion`: the room dictionary, its keys
      in insertion order. */
  method FillRoomMap(registros: seq<Record>) returns (keys: seq<string>, habitaciones: map<string, seq<Record>>)
    ensures keys == Rooms(registros) && habitaciones.Keys == RoomSet(registros)
    ensures forall h :: h in habitaciones ==> habitaciones[h] == PaxOf(registros, h)
  {
    keys := [];
    habitaciones := map[];
    var i := 0;
    while i < |registros|
      invariant i <= |registros|
      invariant RoomMap(registros[..i], keys, habitaciones)
    {
      var registro := registros[i];
      assert registros[..i + 1] == registros[..i] + [registro];
      RoomMapStep(registros[..i], registro, keys, habitaciones);
      var hab := registro.hab;
      if hab in habitaciones {
        habitaciones := habitaciones[hab := habitaciones[hab] + [registro]];
      } else {
        keys := keys + [hab];
        habitaciones := habitaciones[hab := [registro]];
      }
      i := i + 1;
    }
    assert registros[..i] == registros;
  }

  /** The second loop of `agrupar_por_habitacion`: each room group, taken in key
      order, filed under its floor. */
  method FillFloors(groups: seq<RoomGroup>) returns (distribuidos: seq<FloorGroups>)
    ensures distribuidos == Bucket(groups)
  {
    distribuidos := [];
    var j := 0;
    while j < |groups|
      invariant j <= |groups|
      invariant distribuidos == Bucket(groups[..j])
    {
      var g := groups[j];
      BucketStep(groups, j);
      var piso := PisoForRoom(g.room);
      if piso.Some? {
        var f := piso.value;
        var k := FloorIndex(distribuidos, f);
        if k.None? {
          FiledNew(distribuidos, f, g);
          distribuidos := distribuidos + [FloorGroups(f, [])];
          k := Some(|distribuidos| - 1);
        } else {
          FiledExisting(distribuidos, f, g, k.value);
        }
        distribuidos := distribuidos[k.value := FloorGroups(f, distribuidos[k.value].rooms + [g])];
      }
      j := j + 1;
    }
    assert groups[..j] == groups;
  }

  /** `agrupar_por_habitacion`: the room dictionary, then the floor dictionary
      built from its items. */
  method GroupByRoom(registros: seq<Record>) returns (distribuidos: seq<FloorGroups>)
    ensures distribuidos == Distribution(registros)
  {
    var keys, habitaciones := FillRoomMap(registros);
    RoomSetIsRooms(registros);
    var groups := seq(|keys|, j requires 0 <= j < |keys| => RoomGroup(keys[j], habitaciones[keys[j]]));
    assert groups == RoomGroups(registros);
    distribuidos := FillFloors(groups);
  }

  // ---------------------------------------------------------------- properties

  /** Filing `g` under `f` adds it at the end of `f`'s list and touches no other
      floor; floors stay distinct and every entry non-empty. */
  lemma AddToFloorEffect(d: seq<FloorGroups>, f: string, g: RoomGroup)
    requires DistinctFloors(d) && NoEmptyFloor(d)
    ensures DistinctFloors(AddToFloor(d, f, g)) && NoEmptyFloor(AddToFloor(d, f, g))
    ensures forall f' :: RoomsOf(AddToFloor(d, f, g), f') ==
              if f' == f then RoomsOf(d, f) + [g] else RoomsOf(d, f')
  {
    var d' := AddToFloor(d, f, g);
    match FloorIndex(d, f)
    case Some(k) =>
      assert forall a :: 0 <= a < |d'| ==> d'[a].floor == d[a].floor;
      forall f' ensures FloorIndex(d', f') == FloorIndex(d, f') {
        FloorIndexByFloors(d, d', f');
      }
    case None =>
      assert forall a :: 0 <= a < |d| ==> d'[a] == d[a];
      assert d'[|d|] == FloorGroups(f, [g]);
      forall f' | f' != f ensures FloorIndex(d', f') == FloorIndex(d, f') {
        FloorIndexSnoc(d, FloorGroups(f, [g]), f');
      }
      FloorIndexSnoc(d, FloorGroups(f, [g]), f);
  }

  lemma {:induction false} FloorIndexByFloors(d: seq<FloorGroups>, e: seq<FloorGroups>, f: string)
    requires |d| == |e| && forall a :: 0 <= a < |d| ==> d[a].floor == e[a].floor
    ensures FloorIndex(d, f) == FloorIndex(e, f)
  {
    if d != [] && d[0].floor != f {
      FloorIndexByFloors(d[1..], e[1..], f);
    }
  }

  lemma {:induction false} FloorIndexSnoc(d: seq<FloorGroups>, x: FloorGroups, f: string)
    ensures FloorIndex(d + [x], f) ==
              match FloorIndex(d, f)
              case Some(k) => Some(k)
              case None => if x.floor == f then Some(|d|) else None
  {
    if d != [] && d[0].floor != f {
      assert (d + [x])[1..] == d[1..] + [x];
      FloorIndexSnoc(d[1..], x, f);
    }
  }

  /** The floor dictionary built from `gs` has distinct floors, none of them
      empty, and files under each floor exactly the groups of `gs` on that floor,
      in their order in `gs`. */
  lemma {:induction false} BucketShape(gs: seq<RoomGroup>)
    ensures DistinctFloors(Bucket(gs)) && NoEmptyFloor(Bucket(gs))
    ensures forall f :: RoomsOf(Bucket(gs), f) == GroupsOn(gs, f)
  {
    if gs != [] {
      var n := |gs| - 1;
      var prev := gs[..n];
      var g := gs[n];
      assert gs == prev + [g];
      BucketShape(prev);
      forall f ensures GroupsOn(gs, f) == if PisoForRoom(g.room) == Some(f) then GroupsOn(prev, f) + [g] else GroupsOn(prev, f) {
        GroupsOnSnoc(prev, g, f);
      }
      if PisoForRoom(g.room).Some? {
        AddToFloorEffect(Bucket(prev), PisoForRoom(g.room).value, g);
      }
    }
  }

  /** With distinct floors, an entry's rooms are what `RoomsOf` finds under its
      floor. */
  lemma RoomsOfEntry(d: seq<FloorGroups>, a: nat)
    requires DistinctFloors(d) && a < |d|
    ensures RoomsOf(d, d[a].floor) == d[a].rooms
  {
    var k := FloorIndex(d, d[a].floor);
    assert k.Some?;
    assert !(k.value < a) && !(a < k.value);
  }

  /** `GroupsOn` keeps the order of `gs`: an earlier group in the filtered list
      comes from an earlier position of `gs`. */
  lemma {:induction false} GroupsOnOrder(gs: seq<RoomGroup>, f: string, b: nat, b': nat) returns (i: nat, i': nat)
    requires b < b' < |GroupsOn(gs, f)|
    ensures i < i' < |gs| && gs[i] == GroupsOn(gs, f)[b] && gs[i'] == GroupsOn(gs, f)[b']
  {
    var n := |gs| - 1;
    var prev := gs[..n];
    var g := gs[n];
    var r := GroupsOn(gs, f);
    var rp := GroupsOn(prev, f);
    assert r == if PisoForRoom(g.room) == Some(f) then rp + [g] else rp;
    if PisoForRoom(g.room) == Some(f) && b' == |r| - 1 {
      i := GroupsOnIndex(prev, f, b);
      i' := n;
    } else {
      i, i' := GroupsOnOrder(prev, f, b, b');
    }
  }

  /** Where a filtered group sits in `gs`. */
  lemma GroupsOnIndex(gs: seq<RoomGroup>, f: string, b: nat) returns (i: nat)
    requires b < |GroupsOn(gs, f)|
    ensures i < |gs| && gs[i] == GroupsOn(gs, f)[b]
  {
    assert GroupsOn(gs, f)[b] in GroupsOn(gs, f);
    i :| 0 <= i < |gs| && gs[i] == GroupsOn(gs, f)[b];
  }

  /** A floor has room groups exactly when some record's room is on it. */
  lemma GroupsOnNonEmpty(recs: seq<Record>, f: string)
    ensures GroupsOn(RoomGroups(recs), f) != [] <==>
              exists i :: 0 <= i < |recs| && PisoForRoom(recs[i].hab) == Some(f)
  {
    var gs := RoomGroups(recs);
    if GroupsOn(gs, f) != [] {
      var g := GroupsOn(gs, f)[0];
      assert g in GroupsOn(gs, f);
      var j :| 0 <= j < |gs| && gs[j] == g;
      RoomsAre(recs);
      assert Rooms(recs)[j] in Rooms(recs);
    }
    if exists i :: 0 <= i < |recs| && PisoForRoom(recs[i].hab) == Some(f) {
      var i :| 0 <= i < |recs| && PisoForRoom(recs[i].hab) == Some(f);
      RoomListed(recs, i);
      var j := RoomGroupOf(recs, recs[i].hab);
      assert gs[j] in GroupsOn(gs, f);
    }
  }

  /** Room `h` sits at entry `a`, position `b` of `d`. */
  ghost predicate FiledAt(d: seq<FloorGroups>, a: nat, b: nat, h: string) {
    a < |d| && b < |d[a].rooms| && d[a].rooms[b].room == h
  }

  /** Each floor of the distribution holds exactly the room groups on that floor,
      in order; floors are distinct, and a floor has an entry exactly when some
      record's room is on it. */
  lemma DistributionFloors(recs: seq<Record>)
    ensures DistinctFloors(Distribution(recs))
    ensures forall a :: 0 <= a < |Distribution(recs)| ==>
              Distribution(recs)[a].rooms == GroupsOn(RoomGroups(recs), Distribution(recs)[a].floor)
    ensures forall f :: FloorIndex(Distribution(recs), f).Some? <==>
              exists i :: 0 <= i < |recs| && PisoForRoom(recs[i].hab) == Some(f)
  {
    var gs := RoomGroups(recs);
    var d := Distribution(recs);
    BucketShape(gs);
    forall a | 0 <= a < |d| ensures d[a].rooms == GroupsOn(gs, d[a].floor) {
      RoomsOfEntry(d, a);
    }
    forall f ensures FloorIndex(d, f).Some? <==> exists i :: 0 <= i < |recs| && PisoForRoom(recs[i].hab) == Some(f) {
      GroupsOnNonEmpty(recs, f);
    }
  }

  /** Every group of the distribution is on the floor it is filed under and holds
      exactly its room's records, in input order, at least one of them: its k-th
      passenger is the record at the k-th of that room's positions. */
  lemma DistributionGroups(recs: seq<Record>, a: nat, b: nat)
    requires a < |Distribution(recs)| && b < |Distribution(recs)[a].rooms|
    ensures var g := Distribution(recs)[a].rooms[b];
            PisoForRoom(g.room) == Some(Distribution(recs)[a].floor)
            && g.paxList == PaxOf(recs, g.room) && g.paxList != []
    ensures var g := Distribution(recs)[a].rooms[b];
            var idx := PaxPositions(recs, g.room);
            (forall i: nat :: i in idx <==> i < |recs| && recs[i].hab == g.room)
            && (forall p, q :: 0 <= p < q < |idx| ==> idx[p] < idx[q])
            && |g.paxList| == |idx|
            && (forall k :: 0 <= k < |g.paxList| ==> g.paxList[k] == recs[idx[k]])
  {
    var gs := RoomGroups(recs);
    var d := Distribution(recs);
    DistributionFloors(recs);
    var g := d[a].rooms[b];
    assert g in GroupsOn(gs, d[a].floor);
    var j :| 0 <= j < |gs| && gs[j] == g;
    RoomsAre(recs);
    assert Rooms(recs)[j] in Rooms(recs);
    var i :| 0 <= i < |recs| && recs[i].hab == g.room;
    assert recs[i] in PaxOf(recs, g.room);
    PaxPositionsAre(recs, g.room);
    PaxPositionsAscending(recs, g.room);
    PaxOfAtPositions(recs, g.room);
  }

  /** A record whose room is on a floor is placed: its room is filed under that
      floor and the group holds the record. */
  lemma EveryAssignedRecordPlaced(recs: seq<Record>, i: nat)
    requires i < |recs| && PisoForRoom(recs[i].hab).Some?
    ensures exists a: nat, b: nat :: FiledAt(Distribution(recs), a, b, recs[i].hab)
              && Distribution(recs)[a].floor == PisoForRoom(recs[i].hab).value
              && recs[i] in Distribution(recs)[a].rooms[b].paxList
  {
    var gs := RoomGroups(recs);
    var d := Distribution(recs);
    var h := recs[i].hab;
    var f := PisoForRoom(h).value;
    DistributionFloors(recs);
    assert FloorIndex(d, f).Some?;
    var a := FloorIndex(d, f).value;
    RoomListed(recs, i);
    var j := RoomGroupOf(recs, h);
    assert gs[j] in d[a].rooms;
    var b :| 0 <= b < |d[a].rooms| && d[a].rooms[b] == gs[j];
    assert recs[i] in PaxOf(recs, h);
    assert FiledAt(d, a, b, h);
  }

  /** The groups filed under one floor are for distinct rooms. */
  lemma GroupsOnDistinctRooms(recs: seq<Record>, f: string)
    ensures forall b, b' :: 0 <= b < b' < |GroupsOn(RoomGroups(recs), f)| ==>
              GroupsOn(RoomGroups(recs), f)[b].room != GroupsOn(RoomGroups(recs), f)[b'].room
  {
    var gs := RoomGroups(recs);
    var r := GroupsOn(gs, f);
    RoomsDistinct(recs);
    forall b, b' | 0 <= b < b' < |r| ensures r[b].room != r[b'].room {
      var i, i' := GroupsOnOrder(gs, f, b, b');
      assert gs[i].room == Rooms(recs)[i] && gs[i'].room == Rooms(recs)[i'];
    }
  }

  /** No room is filed twice, on one floor or across floors. */
  lemma FiledOnce(recs: seq<Record>, a: nat, b: nat, a': nat, b': nat, h: string)
    requires FiledAt(Distribution(recs), a, b, h) && FiledAt(Distribution(recs), a', b', h)
    ensures a == a' && b == b'
  {
    var d := Distribution(recs);
    DistributionGroups(recs, a, b);
    DistributionGroups(recs, a', b');
    DistributionFloors(recs);
    GroupsOnDistinctRooms(recs, d[a].floor);
  }

  /** Within a floor, rooms are listed in the order of their first record. */
  lemma FloorInFirstAppearanceOrder(recs: seq<Record>, a: nat, b: nat, b': nat)
    requires a < |Distribution(recs)| && b < b' < |Distribution(recs)[a].rooms|
    ensures var rs := Distribution(recs)[a].rooms;
            rs[b].room in Rooms(recs) && rs[b'].room in Rooms(recs)
            && FirstPos(recs, rs[b].room) < FirstPos(recs, rs[b'].room)
  {
    var d := Distribution(recs);
    var gs := RoomGroups(recs);
    DistributionFloors(recs);
    var i, i' := GroupsOnOrder(gs, d[a].floor, b, b');
    RoomsInFirstAppearanceOrder(recs, i, i');
  }
}
