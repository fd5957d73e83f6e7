/** Which zone a record belongs to: `mostSpecificZone` of internal/recordmut. */
module Ownership {
  import opened DomainNames

  /** The zone `z` encloses the name `n` (both canonical, fully qualified). */
  predicate Encloses(z: string, n: string) {
    n == z || (|n| > |z| && n[|n| - |z| - 1] == '.' && n[|n| - |z|..] == z)
  }

  /** The longest enclosing zone so far; the empty string when there is none. */
  function MostSpecific(zones: seq<string>, n: string): string {
    if zones == [] then ""
    else
      var k := |zones| - 1;
      var best := MostSpecific(zones[..k], n);
      if Encloses(zones[k], n) && |zones[k]| > |best| then zones[k] else best
  }

  method MostSpecificZone(zones: seq<string>, n: string) returns (best: string)
    ensures best == MostSpecific(zones, n)
  {
    best := "";
    for i := 0 to |zones|
      invariant best == MostSpecific(zones[..i], n)
    {
      assert zones[..i + 1][..i] == zones[..i];
      if Encloses(zones[i], n) && |zones[i]| > |best| {
        best := zones[i];
      }
    }
    assert zones[..|zones|] == zones;
  }

  /** Enclosing zones of one name are nested: the shorter encloses the longer. */
  lemma EnclosingNested(a: string, b: string, n: string)
    requires Encloses(a, n) && Encloses(b, n) && |a| <= |b|
    ensures Encloses(a, b)
  {
    if a != n && b != n {
      if |a| < |b| {
        assert b[|b| - |a| - 1] == n[|n| - |a| - 1];
        assert b[|b| - |a|..] == n[|n| - |b|..][|b| - |a|..] == n[|n| - |a|..];
      }
    }
  }

  /** The answer: a listed zone that encloses the name and that every other such zone encloses. */
  ghost predicate Owner(zones: seq<string>, n: string, z: string) {
    && z in zones && Encloses(z, n)
    && forall y :: y in zones && Encloses(y, n) ==> Encloses(y, z)
  }

  lemma {:induction false} MostSpecificIs(zones: seq<string>, n: string)
    requires "" !in zones
    ensures var r := MostSpecific(zones, n);
            if r == "" then forall y :: y in zones ==> !Encloses(y, n) else Owner(zones, n, r)
  {
    if zones != [] {
      var k := |zones| - 1;
      var front, last := zones[..k], zones[k];
      assert zones == front + [last];
      MostSpecificIs(front, n);
      var best, r := MostSpecific(front, n), MostSpecific(zones, n);
      if r != "" {
        forall y | y in zones && Encloses(y, n) ensures Encloses(y, r) {
          if y == last {
            if r != last {
              EnclosingNested(last, r, n);
            }
          } else if r == last {
            if best != "" {
              assert Encloses(y, best);
              EnclosingNested(y, r, n);
            }
          }
        }
      }
    }
  }

  /** In terms of labels: the listed zone that shares the most last labels with the name, all of its own. */
  lemma MostSpecificLabels(zones: seq<string>, n: string)
    requires "" !in zones
    ensures var r := MostSpecific(zones, n);
            if r == "" then forall y :: y in zones ==> !Under(y, n)
            else && r in zones && Under(r, n)
                 && forall y :: y in zones && Under(y, n) ==> |LabelsOf(y)| <= |LabelsOf(r)|
  {
    MostSpecificIs(zones, n);
    var r := MostSpecific(zones, n);
    EndsInIsUnder(r, n);
    forall y | y in zones ensures Encloses(y, n) <==> Under(y, n) {
      EndsInIsUnder(y, n);
    }
    forall y | y in zones && Encloses(y, r) ensures |LabelsOf(y)| <= |LabelsOf(r)| {
      EndsInIsUnder(y, r);
    }
  }

  /** The owner of a name does not depend on the order or repetition of the inventory. */
  lemma OwnerUnique(zones: seq<string>, zones': seq<string>, n: string)
    requires "" !in zones && forall z :: z in zones <==> z in zones'
    ensures MostSpecific(zones, n) == MostSpecific(zones', n)
  {
    MostSpecificIs(zones, n);
    MostSpecificIs(zones', n);
  }
}
