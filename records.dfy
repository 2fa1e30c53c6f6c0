/** The canonical reservation record both importers produce (one dictionary per
    passenger, keyed by the ledger headers), and the per-room views of a list of
    records that the counters and the grouping rely on. */
module Records {
  import opened Strings

  /** One passenger-stay, one field per ledger column. */
  datatype Record = Record(
    hab: string,        // HAB: room number
    checkIn: string,    // IN
    checkOut: string,   // OUT
    pax: string,        // PAX: places booked
    docType: string,    // ID
    docNumber: string,  // N.º
    name: string,       // NOMBRE
    age: string,        // EDAD
    voucher: string,    // VOUCHER
    mealPlan: string,   // MAP
    status: string,     // ESTADO
    benefit: string,    // BENEFICIO
    site: string,       // SEDE
    notes: string       // OBSERVACIONES
  )

  /** The ledger's fourteen column headers, in column order. */
  const HEADERS: seq<string> :=
    ["HAB", "IN", "OUT", "PAX", "ID", "N.º", "NOMBRE", "EDAD", "VOUCHER", "MAP",
     "ESTADO", "BENEFICIO", "SEDE", "OBSERVACIONES"]

  /** The record's values in `HEADERS` order, `record[h] for h in HEADERS`. */
  function Fields(r: Record): (s: seq<string>)
    ensures |s| == |HEADERS|
  {
    [r.hab, r.checkIn, r.checkOut, r.pax, r.docType, r.docNumber, r.name, r.age,
     r.voucher, r.mealPlan, r.status, r.benefit, r.site, r.notes]
  }

  /** The record whose `HEADERS`-ordered values are `s`. */
  function FromFields(s: seq<string>): Record
    requires |s| == |HEADERS|
  {
    Record(s[0], s[1], s[2], s[3], s[4], s[5], s[6], s[7], s[8], s[9], s[10], s[11], s[12], s[13])
  }

  /** A record is exactly its fourteen column values, both ways round. */
  lemma FieldsRoundTrip(r: Record, s: seq<string>)
    requires |s| == |HEADERS|
    ensures FromFields(Fields(r)) == r
    ensures Fields(FromFields(s)) == s
  {
  }

  // ---------------------------------------------------------------- per-room views

  /** The distinct room numbers, in order of first appearance (the key order of a
      Python dict filled while walking the records). */
  function Rooms(recs: seq<Record>): seq<string> {
    if recs == [] then []
    else
      var prev := Rooms(recs[..|recs| - 1]);
      var h := recs[|recs| - 1].hab;
      if h in prev then prev else prev + [h]
  }

  /** The set of room numbers, `{r['HAB'] for r in recs}`. */
  function RoomSet(recs: seq<Record>): set<string> {
    set i | 0 <= i < |recs| :: recs[i].hab
  }

  /** The records of one room, in input order. */
  function PaxOf(recs: seq<Record>, h: string): (ps: seq<Record>)
    ensures |ps| <= |recs|
    ensures forall x :: x in ps <==> x in recs && x.hab == h
  {
    if recs == [] then []
    else
      var prev := PaxOf(recs[..|recs| - 1], h);
      var x := recs[|recs| - 1];
      assert recs == recs[..|recs| - 1] + [x];
      if x.hab == h then prev + [x] else prev
  }

  /** The positions of one room's records, in input order. */
  function PaxPositions(recs: seq<Record>, h: string): (r: seq<nat>)
    ensures forall k :: 0 <= k < |r| ==> r[k] < |recs|
  {
    if recs == [] then []
    else PaxPositions(recs[..|recs| - 1], h) + (if recs[|recs| - 1].hab == h then [|recs| - 1] else [])
  }

  /** The positions listed are exactly those of the room's records. */
  lemma {:induction false} PaxPositionsAre(recs: seq<Record>, h: string)
    ensures forall i: nat :: i in PaxPositions(recs, h) <==> i < |recs| && recs[i].hab == h
  {
    if recs != [] {
      var prev := recs[..|recs| - 1];
      PaxPositionsAre(prev, h);
      assert forall i :: 0 <= i < |prev| ==> prev[i] == recs[i];
    }
  }

  /** The positions are listed in increasing order, each once. */
  lemma {:induction false} PaxPositionsAscending(recs: seq<Record>, h: string)
    ensures forall a, b :: 0 <= a < b < |PaxPositions(recs, h)| ==> PaxPositions(recs, h)[a] < PaxPositions(recs, h)[b]
  {
    if recs != [] {
      PaxPositionsAscending(recs[..|recs| - 1], h);
    }
  }

  /** A room's list is its records at their positions, in input order: record
      k of the list is the k-th record of that room, and a record listed twice
      in the input is in the list twice. */
  lemma {:induction false} PaxOfAtPositions(recs: seq<Record>, h: string)
    ensures |PaxOf(recs, h)| == |PaxPositions(recs, h)|
    ensures forall k :: 0 <= k < |PaxOf(recs, h)| ==> PaxOf(recs, h)[k] == recs[PaxPositions(recs, h)[k]]
  {
    if recs != [] {
      var prev := recs[..|recs| - 1];
      var x := recs[|recs| - 1];
      var po, pp := PaxOf(prev, h), PaxPositions(prev, h);
      PaxOfAtPositions(prev, h);
      forall k | 0 <= k < |po| ensures po[k] == recs[pp[k]] {
        assert pp[k] < |prev| && prev[pp[k]] == recs[pp[k]];
      }
      if x.hab == h {
        assert PaxOf(recs, h) == po + [x] && PaxPositions(recs, h) == pp + [|recs| - 1];
      } else {
        assert PaxOf(recs, h) == po && PaxPositions(recs, h) == pp;
      }
    }
  }

  /** Position of a room's first record. */
  function FirstPos(recs: seq<Record>, h: string): (p: nat)
    requires h in Rooms(recs)
    ensures p < |recs| && recs[p].hab == h
    ensures forall i :: 0 <= i < p ==> recs[i].hab != h
  {
    var prev := recs[..|recs| - 1];
    assert forall i :: 0 <= i < |recs| - 1 ==> prev[i] == recs[i];
    if h in Rooms(prev) then FirstPos(prev, h)
    else
      RoomsAre(prev);
      |recs| - 1
  }

  /** `Rooms` lists every room at the place of its first record: earlier in the
      list means earlier first appearance. */
  lemma {:induction false} RoomsInFirstAppearanceOrder(recs: seq<Record>, a: nat, b: nat)
    requires a < b < |Rooms(recs)|
    ensures FirstPos(recs, Rooms(recs)[a]) < FirstPos(recs, Rooms(recs)[b])
  {
    var prev := recs[..|recs| - 1];
    var hs := Rooms(recs);
    if hs[b] in Rooms(prev) {
      assert hs[a] in Rooms(prev) && hs[b] in Rooms(prev);
      assert Rooms(prev) == hs[..|Rooms(prev)|] || Rooms(prev) == hs;
      RoomsInFirstAppearanceOrder(prev, a, b);
    } else {
      assert hs[a] in Rooms(prev);
    }
  }

  /** How many records each room has: the `room_count` dictionary, one more for
      the room of every record in turn. */
  function CountByRoom(recs: seq<Record>): map<string, nat> {
    if recs == [] then map[]
    else
      var mp := CountByRoom(recs[..|recs| - 1]);
      var h := recs[|recs| - 1].hab;
      mp[h := (if h in mp then mp[h] else 0) + 1]
  }

  /** `m.get(k, 0)`. */
  function Get(m: map<string, nat>, k: string): nat {
    if k in m then m[k] else 0
  }

  /** The sum of `m.get(k, 0)` over the keys listed in `ks`. */
  function SumOver(ks: seq<string>, m: map<string, nat>): nat {
    if ks == [] then 0 else SumOver(ks[..|ks| - 1], m) + Get(m, ks[|ks| - 1])
  }

  lemma {:induction false} SumOverAgree(ks: seq<string>, m: map<string, nat>, m': map<string, nat>)
    requires forall k :: k in ks ==> Get(m, k) == Get(m', k)
    ensures SumOver(ks, m) == SumOver(ks, m')
  {
    if ks != [] {
      SumOverAgree(ks[..|ks| - 1], m, m');
    }
  }

  /** Adding one to the count of a key listed exactly once adds one to the sum. */
  lemma {:induction false} SumOverBump(ks: seq<string>, m: map<string, nat>, k: string)
    requires forall i, j :: 0 <= i < j < |ks| ==> ks[i] != ks[j]
    requires k in ks
    ensures SumOver(ks, m[k := Get(m, k) + 1]) == SumOver(ks, m) + 1
  {
    var n := |ks| - 1;
    if ks[n] == k {
      SumOverAgree(ks[..n], m, m[k := Get(m, k) + 1]);
    } else {
      SumOverBump(ks[..n], m, k);
    }
  }

  /** No room is listed twice. */
  lemma {:induction false} RoomsDistinct(recs: seq<Record>)
    ensures forall i, j :: 0 <= i < j < |Rooms(recs)| ==> Rooms(recs)[i] != Rooms(recs)[j]
  {
    if recs != [] {
      var prev, x := recs[..|recs| - 1], recs[|recs| - 1];
      RoomsDistinct(prev);
    }
  }

  /** The listed rooms are exactly the rooms of the records. */
  lemma {:induction false} RoomsAre(recs: seq<Record>)
    ensures forall h :: h in Rooms(recs) <==> h in RoomSet(recs)
  {
    if recs != [] {
      var prev, x := recs[..|recs| - 1], recs[|recs| - 1];
      assert recs == prev + [x];
      RoomsAre(prev);
      RoomSetSnoc(prev, x);
    }
  }

  lemma RoomSetIsRooms(recs: seq<Record>)
    ensures RoomSet(recs) == set h | h in Rooms(recs)
  {
    RoomsAre(recs);
  }

  /** A room is listed when some record carries it. */
  lemma RoomListed(recs: seq<Record>, i: nat)
    requires i < |recs|
    ensures recs[i].hab in Rooms(recs)
  {
    RoomsAre(recs);
  }

  lemma RoomsSnoc(prev: seq<Record>, x: Record)
    ensures Rooms(prev + [x]) == if x.hab in Rooms(prev) then Rooms(prev) else Rooms(prev) + [x.hab]
  {
    assert (prev + [x])[..|prev|] == prev;
  }

  lemma PaxOfSnoc(prev: seq<Record>, x: Record, h: string)
    ensures PaxOf(prev + [x], h) == if x.hab == h then PaxOf(prev, h) + [x] else PaxOf(prev, h)
  {
    assert (prev + [x])[..|prev|] == prev;
  }

  lemma RoomSetSnoc(prev: seq<Record>, x: Record)
    ensures RoomSet(prev + [x]) == RoomSet(prev) + {x.hab}
  {
    var recs := prev + [x];
    assert forall i :: 0 <= i < |prev| ==> recs[i] == prev[i];
    assert recs[|prev|] == x;
  }

  lemma PaxOfAbsent(recs: seq<Record>, h: string)
    requires h !in RoomSet(recs)
    ensures PaxOf(recs, h) == []
  {
  }

  lemma CountByRoomSnoc(prev: seq<Record>, x: Record)
    ensures CountByRoom(prev + [x]) ==
              var mp := CountByRoom(prev);
              if x.hab in mp then mp[x.hab := mp[x.hab] + 1] else mp[x.hab := 1]
  {
    assert (prev + [x])[..|prev|] == prev;
  }

  /** `room_count` has a key for every room and for nothing else, and each room's
      count is the number of its records. */
  lemma {:induction false} CountByRoomIsPaxCount(recs: seq<Record>)
    ensures CountByRoom(recs).Keys == RoomSet(recs)
    ensures forall h :: h in CountByRoom(recs) ==> CountByRoom(recs)[h] == |PaxOf(recs, h)|
  {
    if recs != [] {
      var prev, x := recs[..|recs| - 1], recs[|recs| - 1];
      assert recs == prev + [x];
      CountByRoomIsPaxCount(prev);
      CountByRoomSnoc(prev, x);
      RoomSetSnoc(prev, x);
      var mp, m := CountByRoom(prev), CountByRoom(recs);
      forall h | h in m
        ensures m[h] == |PaxOf(recs, h)|
      {
        PaxOfSnoc(prev, x, h);
        if h == x.hab && x.hab !in mp {
          PaxOfAbsent(prev, h);
        }
      }
    }
  }

  /** The keys of `room_count` are the listed rooms. */
  lemma {:induction false} CountKeysAreRooms(recs: seq<Record>)
    ensures forall h :: h in CountByRoom(recs) <==> h in Rooms(recs)
  {
    if recs != [] {
      var prev, x := recs[..|recs| - 1], recs[|recs| - 1];
      assert recs == prev + [x];
      CountKeysAreRooms(prev);
      CountByRoomSnoc(prev, x);
      RoomsSnoc(prev, x);
    }
  }

  /** One more record adds one to the sum, whether its room is new or not. */
  lemma SumOverStep(ks: seq<string>, ks': seq<string>, mp: map<string, nat>, m: map<string, nat>, h: string, total: nat)
    requires forall i, j :: 0 <= i < j < |ks| ==> ks[i] != ks[j]
    requires SumOver(ks, mp) == total && m == mp[h := Get(mp, h) + 1]
    requires if h in ks then ks' == ks else h !in mp && ks' == ks + [h]
    ensures SumOver(ks', m) == total + 1
  {
    if h in ks {
      SumOverBump(ks, mp, h);
    } else {
      SumOverAgree(ks, mp, m);
      assert ks'[..|ks'| - 1] == ks;
    }
  }

  /** The per-room counts add up to the number of records. */
  lemma {:induction false} CountsAddUp(recs: seq<Record>)
    ensures SumOver(Rooms(recs), CountByRoom(recs)) == |recs|
  {
    if recs != [] {
      var prev, x := recs[..|recs| - 1], recs[|recs| - 1];
      CountsAddUp(prev);
      CountKeysAreRooms(prev);
      RoomsDistinct(prev);
      SumOverStep(Rooms(prev), Rooms(recs), CountByRoom(prev), CountByRoom(recs), x.hab, |prev|);
    }
  }
}
