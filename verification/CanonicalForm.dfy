/** The canonical text of a zone (internal/named/axfr.go): its order, and that it forgets transfer order. */
module CanonicalForm {
  import opened Text
  import opened Sorting
  import opened RecordMut

  // ----- Names as reversed labels -----

  function LowerChar(c: char): char {
    if 'A' <= c <= 'Z' then (c as int + 32) as char else c
  }

  function Lower(s: string): (r: string)
    ensures |r| == |s| && forall i :: 0 <= i < |s| ==> r[i] == LowerChar(s[i])
  {
    seq(|s|, i requires 0 <= i < |s| => LowerChar(s[i]))
  }

  lemma LowersLetters(c: char)
    ensures forall i :: 0 <= i < 26 ==> LowerChar("ABCDEFGHIJKLMNOPQRSTUVWXYZ"[i]) == "abcdefghijklmnopqrstuvwxyz"[i]
    ensures c !in "ABCDEFGHIJKLMNOPQRSTUVWXYZ" ==> LowerChar(c) == c
  {
    var i := c as int - 'A' as int;
    if 0 <= i < 26 {
      assert "ABCDEFGHIJKLMNOPQRSTUVWXYZ"[i] == c;
    }
  }

  function Reverse<T>(s: seq<T>): (r: seq<T>)
    ensures |r| == |s| && forall i :: 0 <= i < |s| ==> r[i] == s[|s| - 1 - i]
  {
    seq(|s|, i requires 0 <= i < |s| => s[|s| - 1 - i])
  }

  /** The swapping loop of `reverseLabels`. */
  method ReverseLabels(labels: array<string>)
    modifies labels
    ensures labels[..] == Reverse(old(labels[..]))
  {
    var i, j := 0, labels.Length - 1;
    while i < j
      invariant 0 <= i <= j + 1 && i + j == labels.Length - 1
      invariant forall k :: 0 <= k < i || j < k < labels.Length ==> labels[k] == old(labels[labels.Length - 1 - k])
      invariant forall k :: i <= k <= j ==> labels[k] == old(labels[k])
    {
      labels[i], labels[j] := labels[j], labels[i];
      i, j := i + 1, j - 1;
    }
  }

  /** A name's labels from the top down, without case or trailing dot. */
  function Labels(name: string): seq<string> {
    Reverse(SplitOn('.', Lower(TrimDot(name))))
  }

  predicate SameName(a: string, b: string) {
    Lower(TrimDot(a)) == Lower(TrimDot(b))
  }

  lemma LabelsIdentify(a: string, b: string)
    ensures SameName(a, b) <==> Labels(a) == Labels(b)
  {
    var sa, sb := SplitOn('.', Lower(TrimDot(a))), SplitOn('.', Lower(TrimDot(b)));
    if Labels(a) == Labels(b) {
      assert |sa| == |sb|;
      forall i | 0 <= i < |sa| ensures sa[i] == sb[i] {
        assert Labels(a)[|sa| - 1 - i] == sa[i] && Labels(b)[|sb| - 1 - i] == sb[i];
      }
      assert sa == sb;
      JoinSplitOn('.', Lower(TrimDot(a)));
      JoinSplitOn('.', Lower(TrimDot(b)));
    }
  }

  /** `lessName` on reversed labels: the first difference decides, then the shorter name. */
  predicate LessLabels(a: seq<string>, b: seq<string>) {
    if b == [] then false
    else if a == [] then true
    else if a[0] != b[0] then Less(a[0], b[0])
    else LessLabels(a[1..], b[1..])
  }

  /** The comparison from label `i` on. */
  predicate LessFrom(a: seq<string>, b: seq<string>, i: nat)
    requires i <= |a| && i <= |b|
  {
    LessLabels(a[i..], b[i..])
  }

  lemma LessFromStep(a: seq<string>, b: seq<string>, i: nat)
    requires i <= |a| && i <= |b|
    ensures LessFrom(a, b, 0) == LessLabels(a, b)
    ensures i < |a| && i < |b| ==>
              LessFrom(a, b, i) == if a[i] != b[i] then Less(a[i], b[i]) else LessFrom(a, b, i + 1)
    ensures i == |a| || i == |b| ==> LessFrom(a, b, i) == (|a| < |b|)
  {
    assert a[0..] == a && b[0..] == b;
    if i < |a| && i < |b| {
      assert a[i..][1..] == a[i + 1..] && b[i..][1..] == b[i + 1..];
    }
  }

  /** The comparing loop of `lessName`. */
  method LessName(a: string, b: string) returns (r: bool)
    ensures r == LessLabels(Labels(a), Labels(b))
  {
    var ra, rb := Labels(a), Labels(b);
    var i := 0;
    LessFromStep(ra, rb, 0);
    while i < |ra| && i < |rb|
      invariant i <= |ra| && i <= |rb|
      invariant LessFrom(ra, rb, i) == LessLabels(ra, rb)
    {
      LessFromStep(ra, rb, i);
      if ra[i] != rb[i] {
        return Less(ra[i], rb[i]);
      }
      i := i + 1;
    }
    LessFromStep(ra, rb, i);
    return |ra| < |rb|;
  }

  lemma {:induction false} LabelsIrreflexive(a: seq<string>)
    ensures !LessLabels(a, a)
  {
    if a != [] {
      LabelsIrreflexive(a[1..]);
    }
  }

  lemma {:induction false} LabelsTotal(a: seq<string>, b: seq<string>)
    ensures a == b || LessLabels(a, b) || LessLabels(b, a)
  {
    if a != [] && b != [] {
      if a[0] == b[0] {
        LabelsTotal(a[1..], b[1..]);
        assert a == [a[0]] + a[1..] && b == [b[0]] + b[1..];
      } else {
        LessTotal(a[0], b[0]);
      }
    }
  }

  lemma {:induction false} LabelsTransitive(a: seq<string>, b: seq<string>, c: seq<string>)
    requires LessLabels(a, b) && LessLabels(b, c)
    ensures LessLabels(a, c)
  {
    if a != [] {
      if a[0] == b[0] && b[0] == c[0] {
        LabelsTransitive(a[1..], b[1..], c[1..]);
      } else if a[0] != b[0] && b[0] != c[0] {
        LessTransitive(a[0], b[0], c[0]);
        LessIrreflexive(a[0]);
      }
    }
  }

  // ----- The record order -----

  function Rank(rtype: nat): nat {
    if rtype == 6 then 0 else if rtype == 2 then 1 else if rtype == 15 then 2 else 3
  }

  datatype SortKey = SortKey(labels: seq<string>, rank: nat, text: string)

  function SortKeyOf(names: Names, rr: Record): SortKey {
    SortKey(Labels(rr.name), Rank(rr.rtype), TextOf(names, rr))
  }

  predicate KeyLess(p: SortKey, q: SortKey) {
    if p.labels != q.labels then LessLabels(p.labels, q.labels)
    else if p.rank != q.rank then p.rank < q.rank
    else Less(p.text, q.text)
  }

  /** The comparator of `SortZone`. */
  function ZoneLess(names: Names): (Record, Record) -> bool {
    (a: Record, b: Record) =>
      if !SameName(a.name, b.name) then LessLabels(Labels(a.name), Labels(b.name))
      else if Rank(a.rtype) != Rank(b.rtype) then Rank(a.rtype) < Rank(b.rtype)
      else Less(TextOf(names, a), TextOf(names, b))
  }

  lemma ZoneLessByKey(names: Names, a: Record, b: Record)
    ensures ZoneLess(names)(a, b) <==> KeyLess(SortKeyOf(names, a), SortKeyOf(names, b))
  {
    LabelsIdentify(a.name, b.name);
  }

  lemma KeyTotal(p: SortKey, q: SortKey)
    ensures p == q || KeyLess(p, q) || KeyLess(q, p)
  {
    LabelsTotal(p.labels, q.labels);
    LessTotal(p.text, q.text);
  }

  lemma KeyAsymmetric(p: SortKey, q: SortKey)
    requires KeyLess(p, q)
    ensures !KeyLess(q, p)
  {
    if p.labels != q.labels {
      if LessLabels(q.labels, p.labels) {
        LabelsTransitive(p.labels, q.labels, p.labels);
        LabelsIrreflexive(p.labels);
      }
    } else if p.rank == q.rank {
      LessAsymmetric(p.text, q.text);
    }
  }

  lemma KeyTransitive(p: SortKey, q: SortKey, r: SortKey)
    requires KeyLess(p, q) && KeyLess(q, r)
    ensures KeyLess(p, r)
  {
    if p.labels != q.labels && q.labels != r.labels {
      LabelsTransitive(p.labels, q.labels, r.labels);
      LabelsIrreflexive(p.labels);
    } else if p.labels == q.labels == r.labels && p.rank == q.rank == r.rank {
      LessTransitive(p.text, q.text, r.text);
    }
  }

  /** The comparator is a strict weak order, and records it does not separate print alike. */
  lemma ZoneOrder(names: Names)
    ensures StrictWeakOrder(ZoneLess(names))
    ensures forall a, b :: !ZoneLess(names)(a, b) && !ZoneLess(names)(b, a) ==> TextOf(names, a) == TextOf(names, b)
  {
    var less := ZoneLess(names);
    forall a, b | less(a, b) ensures !less(b, a) {
      ZoneLessByKey(names, a, b);
      ZoneLessByKey(names, b, a);
      KeyAsymmetric(SortKeyOf(names, a), SortKeyOf(names, b));
    }
    forall a, b, c | !less(a, b) && !less(b, c) ensures !less(a, c) {
      ZoneLessNegative(names, a, b, c);
    }
    forall a, b | !less(a, b) && !less(b, a) ensures TextOf(names, a) == TextOf(names, b) {
      ZoneLessByKey(names, a, b);
      ZoneLessByKey(names, b, a);
      KeyTotal(SortKeyOf(names, a), SortKeyOf(names, b));
    }
  }

  lemma ZoneLessNegative(names: Names, a: Record, b: Record, c: Record)
    requires !ZoneLess(names)(a, b) && !ZoneLess(names)(b, c)
    ensures !ZoneLess(names)(a, c)
  {
    var p, q, r := SortKeyOf(names, a), SortKeyOf(names, b), SortKeyOf(names, c);
    ZoneLessByKey(names, a, b);
    ZoneLessByKey(names, b, c);
    ZoneLessByKey(names, a, c);
    KeyTotal(p, q);
    KeyTotal(q, r);
    if p != q && q != r {
      KeyTransitive(r, q, p);
    }
    if KeyLess(p, r) {
      KeyAsymmetric(p, r);
    }
  }

  // ----- The canonical text -----

  function Lines(texts: seq<string>): string {
    if texts == [] then "" else texts[0] + "\n" + Lines(texts[1..])
  }

  function TextFn(names: Names): Record -> string {
    (rr: Record) => TextOf(names, rr)
  }

  function CanonicalText(names: Names, rrs: seq<Record>): string {
    Lines(Image(TextFn(names), Sort(ZoneLess(names), rrs)))
  }

  method WriteLines(texts: seq<string>) returns (out: string)
    ensures out == Lines(texts)
  {
    out := "";
    assert texts[0..] == texts;
    for i := 0 to |texts|
      invariant out + Lines(texts[i..]) == Lines(texts)
    {
      assert texts[i..][1..] == texts[i + 1..];
      assert Lines(texts[i..]) == texts[i] + "\n" + Lines(texts[i + 1..]);
      out := out + texts[i] + "\n";
    }
  }

  /** `Canonical`: sort a copy, write one record a line. */
  method Dump(names: Names, rrs: seq<Record>) returns (text: string)
    ensures text == CanonicalText(names, rrs)
  {
    ZoneOrder(names);
    var cp := SortList(ZoneLess(names), rrs);
    text := WriteLines(Image(TextFn(names), cp));
  }

  /** Any correct way of sorting gives the canonical lines: they depend on the records only. */
  lemma AnySortGivesCanonical(names: Names, rrs: seq<Record>, sorted: seq<Record>)
    requires multiset(sorted) == multiset(rrs) && Sorted(ZoneLess(names), sorted)
    ensures Lines(Image(TextFn(names), sorted)) == CanonicalText(names, rrs)
  {
    ZoneOrder(names);
    SortSorts(ZoneLess(names), rrs);
    SortedLooksUnique(ZoneLess(names), TextFn(names), sorted, Sort(ZoneLess(names), rrs));
  }

  /** Canonical form: two transfers of the same records, in any order, have the same text. */
  lemma CanonicalForgetsOrder(names: Names, a: seq<Record>, b: seq<Record>)
    requires multiset(a) == multiset(b)
    ensures CanonicalText(names, a) == CanonicalText(names, b)
  {
    ZoneOrder(names);
    SortSorts(ZoneLess(names), b);
    AnySortGivesCanonical(names, a, Sort(ZoneLess(names), b));
  }

  lemma {:induction false} LinesSplit(texts: seq<string>)
    requires forall i :: 0 <= i < |texts| ==> NoNewline(texts[i])
    ensures Split(Lines(texts)) == texts + [""]
  {
    LinesJoin(texts);
    SplitJoin(texts + [""]);
  }

  lemma {:induction false} LinesJoin(texts: seq<string>)
    ensures Lines(texts) == Join(texts + [""])
  {
    if texts == [] {
      assert texts + [""] == [""];
    } else {
      LinesJoin(texts[1..]);
      assert (texts + [""])[1..] == texts[1..] + [""];
    }
  }

  /** The canonical text, read line by line, is the sorted records' texts, one line for each record. */
  lemma CanonicalReadsBack(names: Names, rrs: seq<Record>)
    requires forall rr :: rr in rrs ==> NoNewline(TextOf(names, rr))
    ensures exists sorted :: multiset(sorted) == multiset(rrs) && Sorted(ZoneLess(names), sorted)
              && |Split(CanonicalText(names, rrs))| == |sorted| + 1
              && forall i :: 0 <= i < |sorted| ==> Split(CanonicalText(names, rrs))[i] == TextOf(names, sorted[i])
  {
    var sorted := Sort(ZoneLess(names), rrs);
    ZoneOrder(names);
    SortSorts(ZoneLess(names), rrs);
    var texts := Image(TextFn(names), sorted);
    forall i | 0 <= i < |texts| ensures NoNewline(texts[i]) {
      assert sorted[i] in multiset(sorted);
    }
    LinesSplit(texts);
    assert |Split(CanonicalText(names, rrs))| == |sorted| + 1;
  }

  // ----- Parents first -----

  lemma {:induction false} PrefixLess(a: seq<string>, b: seq<string>)
    requires b != []
    ensures LessLabels(a, a + b)
  {
    if a == [] {
      assert a + b == b;
    } else {
      PrefixLess(a[1..], b);
      assert (a + b)[1..] == a[1..] + b;
    }
  }

  lemma ReverseConcat<T>(a: seq<T>, b: seq<T>)
    ensures Reverse(a + b) == Reverse(b) + Reverse(a)
  {
  }

  lemma {:induction false} LessLabelsIs(a: seq<string>, b: seq<string>, k: nat)
    requires k <= |a| && k <= |b| && a[..k] == b[..k]
    requires k < |a| && k < |b| ==> a[k] != b[k]
    ensures LessLabels(a, b) <==> k < |b| && (k < |a| ==> Less(a[k], b[k]))
    decreases k
  {
    if k > 0 {
      assert a[0] == a[..k][0] == b[..k][0] == b[0];
      assert a[1..][..k - 1] == a[..k][1..] == b[..k][1..] == b[1..][..k - 1];
      LessLabelsIs(a[1..], b[1..], k - 1);
    }
  }

  /**
   * In canonical order names go by their labels from the top: of two names whose top `k` labels
   * agree, without case, and whose next ones differ, the one with the smaller label comes first.
   */
  lemma LabelsInOrder(names: Names, sorted: seq<Record>, i: nat, j: nat, k: nat)
    requires Sorted(ZoneLess(names), sorted) && i < |sorted| && j < |sorted|
    requires var a, b := Labels(sorted[i].name), Labels(sorted[j].name);
             k < |a| && k < |b| && a[..k] == b[..k] && Less(a[k], b[k])
    ensures i < j
  {
    var a, b := Labels(sorted[i].name), Labels(sorted[j].name);
    LessIrreflexive(b[k]);
    LessLabelsIs(a, b, k);
    LabelsIdentify(sorted[i].name, sorted[j].name);
    ZoneOrder(names);
    assert ZoneLess(names)(sorted[i], sorted[j]);
  }

  /** The labels are the name's pieces between the dots, last first, in lower case, without the trailing dot. */
  lemma LabelsAre(name: string, i: nat)
    requires i < |Labels(name)|
    ensures |Labels(name)| == |SplitOn('.', Lower(TrimDot(name)))|
    ensures Labels(name)[i] == SplitOn('.', Lower(TrimDot(name)))[|Labels(name)| - 1 - i]
  {
  }

  /** In canonical order a name's SOA comes first, then its NS, then its MX, then the rest, each kind by text. */
  lemma KindsInOrder(names: Names, sorted: seq<Record>, i: nat, j: nat)
    requires Sorted(ZoneLess(names), sorted) && i < j < |sorted| && SameName(sorted[i].name, sorted[j].name)
    ensures sorted[j].rtype == 6 ==> sorted[i].rtype == 6
    ensures sorted[j].rtype == 2 ==> sorted[i].rtype in {6, 2}
    ensures sorted[j].rtype == 15 ==> sorted[i].rtype in {6, 2, 15}
    ensures sorted[i].rtype == sorted[j].rtype || (sorted[i].rtype !in {6, 2, 15} && sorted[j].rtype !in {6, 2, 15})
            ==> !Less(TextOf(names, sorted[j]), TextOf(names, sorted[i]))
  {
    assert !ZoneLess(names)(sorted[j], sorted[i]);
  }

  /** In canonical order every record of a name comes before every record below that name, in any case. */
  lemma ParentFirst(names: Names, sorted: seq<Record>, i: nat, j: nat, below: string)
    requires Sorted(ZoneLess(names), sorted) && i < |sorted| && j < |sorted|
    requires Lower(TrimDot(sorted[j].name)) == below + "." + Lower(TrimDot(sorted[i].name))
    ensures i < j
  {
    var p, c := Lower(TrimDot(sorted[i].name)), Lower(TrimDot(sorted[j].name));
    SplitOnConcat('.', below, p);
    ReverseConcat(SplitOn('.', below), SplitOn('.', p));
    PrefixLess(Labels(sorted[i].name), Reverse(SplitOn('.', below)));
    assert |p| < |c|;
    assert ZoneLess(names)(sorted[i], sorted[j]);
    ZoneOrder(names);
  }
}
