/** `get_piso_for_room`: which floor a room number belongs to, by the first range
    of the floor table whose closed interval holds the number. */
module Floors {
  import opened Strings

  /** One entry of the floor table: a floor and its closed interval of rooms. */
  datatype FloorRange = FloorRange(floor: string, lo: int, hi: int)

  /** `PISO_RANGES`, in the dictionary's order. */
  const PISO_RANGES: seq<FloorRange> :=
    [FloorRange("PISO_1", 101, 121), FloorRange("PISO_2", 222, 242), FloorRange("PISO_3", 343, 353)]

  /** `PISO_SHEET_NAMES`: the sheet holding each floor's grid. */
  const PISO_SHEET_NAMES: map<string, string> :=
    map["PISO_1" := "PISO 1", "PISO_2" := "PISO 2", "PISO_3" := "PISO 3"]

  predicate Covers(g: FloorRange, n: int) {
    g.lo <= n <= g.hi
  }

  /** The position of the first range holding `n`. */
  function FirstCovering(ranges: seq<FloorRange>, n: int): (r: Option<nat>)
    ensures r.Some? ==> r.value < |ranges| && Covers(ranges[r.value], n)
                        && forall j :: 0 <= j < r.value ==> !Covers(ranges[j], n)
    ensures r.None? <==> forall j :: 0 <= j < |ranges| ==> !Covers(ranges[j], n)
  {
    if ranges == [] then None
    else if Covers(ranges[0], n) then Some(0)
    else match FirstCovering(ranges[1..], n)
      case None => None
      case Some(k) => Some(k + 1)
  }

  /** The floor of `room` under the table `ranges`: `None` when the stripped room
      is not an integer or no range holds it. */
  function FloorIn(ranges: seq<FloorRange>, room: string): Option<string> {
    match ParseInt(room)
    case None => None
    case Some(n) =>
      match FirstCovering(ranges, n)
      case None => None
      case Some(i) => Some(ranges[i].floor)
  }

  /** `get_piso_for_room` with the hotel's table. */
  function PisoForRoom(room: string): (r: Option<string>)
    ensures r.Some? ==> r.value in PISO_SHEET_NAMES
  {
    FloorIn(PISO_RANGES, room)
  }

  /** Among overlapping ranges the first in table order wins: the floor is that of
      the earliest range holding the number, whatever later ranges say. */
  lemma FirstRangeWins(ranges: seq<FloorRange>, room: string, n: int, i: nat)
    requires ParseInt(room) == Some(n)
    requires i < |ranges| && Covers(ranges[i], n)
    requires forall j :: 0 <= j < i ==> !Covers(ranges[j], n)
    ensures FloorIn(ranges, room) == Some(ranges[i].floor)
  {
    var k := FirstCovering(ranges, n);
    assert k.Some?;
    assert !(k.value < i) && !(i < k.value);
  }

  /** A room that is an integer no range holds has no floor. */
  lemma OutsideEveryRange(ranges: seq<FloorRange>, room: string, n: int)
    requires ParseInt(room) == Some(n)
    requires forall j :: 0 <= j < |ranges| ==> !Covers(ranges[j], n)
    ensures FloorIn(ranges, room) == None
  {
  }

  /** A room that is not an integer (`"ANEXO"`, `"12B"`) has no floor, under any
      table: the `ValueError` is caught and `None` returned. */
  lemma NonNumericUnassigned(ranges: seq<FloorRange>, room: string, i: nat)
    requires i < |Strip(room)| && !IsDigit(Strip(room)[i]) && !(i == 0 && IsSign(Strip(room)[0]))
    ensures FloorIn(ranges, room) == None
  {
    NonNumericRefused(room, i);
  }

  /** The hotel's table classifies the room written `str(n)` by closed intervals:
      101-121 is PISO_1, 222-242 is PISO_2, 343-353 is PISO_3, anything else none. */
  lemma PisoOfNumber(n: nat)
    ensures PisoForRoom(NatToString(n)) ==
              if 101 <= n <= 121 then Some("PISO_1")
              else if 222 <= n <= 242 then Some("PISO_2")
              else if 343 <= n <= 353 then Some("PISO_3")
              else None
  {
    var room := NatToString(n);
    IntOfStr(n);
    if 101 <= n <= 121 {
      FirstRangeWins(PISO_RANGES, room, n, 0);
    } else if 222 <= n <= 242 {
      FirstRangeWins(PISO_RANGES, room, n, 1);
    } else if 343 <= n <= 353 {
      FirstRangeWins(PISO_RANGES, room, n, 2);
    } else {
      OutsideEveryRange(PISO_RANGES, room, n);
    }
  }

  lemma ThreeDigits(n: nat)
    requires 100 <= n < 1000
    ensures NatToString(n) == [DigitChar(n / 100), DigitChar(n / 10 % 10), DigitChar(n % 10)]
  {
    assert NatToString(n / 10) == NatToString(n / 100) + [DigitChar(n / 10 % 10)];
  }

  lemma DigitChars()
    ensures DigitChar(0) == '0' && DigitChar(1) == '1' && DigitChar(2) == '2'
  {
  }

  lemma Written101()
    ensures NatToString(101) == "101"
  {
    ThreeDigits(101);
    DigitChars();
  }

  lemma Written121()
    ensures NatToString(121) == "121"
  {
    ThreeDigits(121);
    DigitChars();
  }

  lemma Written122()
    ensures NatToString(122) == "122"
  {
    ThreeDigits(122);
    DigitChars();
  }

  /** The lower boundary is inside: room 101 is on PISO_1. */
  lemma LowerBoundaryRoom()
    ensures PisoForRoom("101") == Some("PISO_1")
  {
    Written101();
    PisoOfNumber(101);
  }

  /** The upper boundary is inside: room 121 is on PISO_1. */
  lemma UpperBoundaryRoom()
    ensures PisoForRoom("121") == Some("PISO_1")
  {
    Written121();
    PisoOfNumber(121);
  }

  /** One past the upper boundary is outside: room 122 is on no floor. */
  lemma PastBoundaryRoom()
    ensures PisoForRoom("122") == None
  {
    Written122();
    PisoOfNumber(122);
  }

  /** The annex, written "ANEXO", is on no floor. */
  lemma AnnexUnassigned()
    ensures PisoForRoom("ANEXO") == None
  {
    StripOfStripped("ANEXO");
    NonNumericUnassigned(PISO_RANGES, "ANEXO", 0);
  }
}
