/** Serial arithmetic: `nextSerial` and `SerialFloor` in plain order and in that of section 3.2 of RFC 1982. */
module Serial {
  import opened Text
  import opened ZoneFile

  const HALF: nat := 0x8000_0000

  /** The date base of `nextSerial`, YYYYMMDD00 in uint32 arithmetic. */
  function DateBase(y: nat, m: nat, d: nat): nat {
    (y * 1000000 + m * 10000 + d * 100) % UINT32
  }

  /** Its decimal digits are the date's: year, two for the month, two for the day, and two zeros. */
  lemma DateDigits(y: nat, m: nat, d: nat)
    requires 1 <= m <= 12 && 1 <= d <= 31 && y < 4294
    ensures var base := DateBase(y, m, d);
            base / 1000000 == y && base / 10000 % 100 == m && base / 100 % 100 == d && base % 100 == 0
  {
    assert (y * 1000000 + m * 10000 + d * 100) / 10000 == y * 100 + m;
    assert (y * 1000000 + m * 10000 + d * 100) / 100 == y * 10000 + m * 100 + d;
  }

  /** `b` follows `a` in serial number arithmetic (section 3.2 of RFC 1982). */
  predicate Advances(a: nat, b: nat)
    requires a < UINT32 && b < UINT32
  {
    (a < b && b - a < HALF) || (a > b && a - b > HALF)
  }

  /** Going forward by `k` steps is an advance exactly when 0 < k < 2^31. */
  lemma AdvanceDistance(a: nat, k: nat)
    requires a < UINT32 && k < UINT32
    ensures Advances(a, (a + k) % UINT32) <==> 0 < k < HALF
  {
    if a + k < UINT32 {
      assert (a + k) % UINT32 == a + k;
    } else {
      assert (a + k) % UINT32 == a + k - UINT32;
    }
  }

  /** The next serial follows every serial, even across the wrap, exactly while the date base is small. */
  lemma NextSerialAdvances(today: nat)
    requires today < UINT32
    ensures (forall cur :: 0 <= cur < UINT32 ==> Advances(cur, NextSerial(cur, today))) <==> today < HALF - 1
  {
    if today < HALF - 1 {
      forall cur | 0 <= cur < UINT32 ensures Advances(cur, NextSerial(cur, today)) {
        var next := NextSerial(cur, today);
        if cur == UINT32 - 1 {
          AdvanceDistance(cur, next + 1);
        } else {
          AdvanceDistance(cur, next - cur);
        }
      }
    } else {
      assert NextSerial(UINT32 - 1, today) == today;
      assert !Advances(UINT32 - 1, NextSerial(UINT32 - 1, today));
    }
  }

  /** For calendar dates before the base itself wraps, that is exactly up to the year 2147. */
  lemma DatesThatAdvance(y: nat, m: nat, d: nat)
    requires 1 <= m <= 12 && 1 <= d <= 31 && y <= 4294
    ensures (forall cur :: 0 <= cur < UINT32 ==> Advances(cur, NextSerial(cur, DateBase(y, m, d)))) <==> y <= 2147
  {
    var base := y * 1000000 + m * 10000 + d * 100;
    assert DateBase(y, m, d) == base;
    NextSerialAdvances(base);
  }

  /** In plain order the next serial is larger, unless the serial is the last one. */
  lemma NextSerialGrows(cur: nat, today: nat)
    requires cur < UINT32 && today < UINT32
    ensures NextSerial(cur, today) < UINT32
    ensures NextSerial(cur, today) > cur <==> cur < UINT32 - 1
    ensures NextSerial(cur, today) >= today
  {
  }

  /** It is the least serial that is above the old one and not below the date, where there is one. */
  lemma NextSerialLeast(cur: nat, today: nat, other: nat)
    requires cur < UINT32 - 1 && today < UINT32
    ensures cur < NextSerial(cur, today) < UINT32 && today <= NextSerial(cur, today)
    ensures cur < other && today <= other ==> NextSerial(cur, today) <= other
  {
  }

  /** The floored serial exceeds both the file's and the floor, exactly when neither is the last serial. */
  lemma FloorSerialExceeds(cur: nat, floor: nat, today: nat)
    requires cur < UINT32 && floor < UINT32 && today < UINT32
    ensures FloorSerial(cur, floor, today) < UINT32
    ensures FloorSerial(cur, floor, today) > cur && FloorSerial(cur, floor, today) > floor
            <==> cur < UINT32 - 1 && floor < UINT32 - 1
  {
    NextSerialGrows(if floor > cur then floor else cur, today);
  }

  /** It is the least serial above both and not below the date, where there is one. */
  lemma FloorSerialLeast(cur: nat, floor: nat, today: nat, other: nat)
    requires cur < UINT32 - 1 && floor < UINT32 - 1 && today < UINT32
    ensures today <= FloorSerial(cur, floor, today)
    ensures cur < other && floor < other && today <= other ==> FloorSerial(cur, floor, today) <= other
  {
    NextSerialLeast(if floor > cur then floor else cur, today, other);
  }
}
