/** Names as lists of labels: what being at or below a zone means, and what the string tests make of it. */
module DomainNames {
  import opened Text

  /** The labels between the dots, the empty one after a last dot included. */
  function LabelsOf(name: string): seq<string> {
    SplitOn('.', name)
  }

  /** The labels of `z` are the last labels of `n`. */
  predicate Under(z: string, n: string) {
    |LabelsOf(z)| <= |LabelsOf(n)| && LabelsOf(n)[|LabelsOf(n)| - |LabelsOf(z)|..] == LabelsOf(z)
  }

  /** `strings.HasSuffix(n, "." + z)`, or the same name. */
  predicate EndsIn(z: string, n: string) {
    n == z || (|n| > |z| && n[|n| - |z| - 1] == '.' && n[|n| - |z|..] == z)
  }

  lemma ConcatEnds(x: string, z: string)
    ensures EndsIn(z, x + ['.'] + z)
  {
  }

  lemma EndsParts(z: string, n: string) returns (x: string)
    requires EndsIn(z, n) && n != z
    ensures n == x + ['.'] + z
  {
    x := n[..|n| - |z| - 1];
  }

  lemma ConcatUnder(x: string, z: string)
    ensures Under(z, x + ['.'] + z)
  {
    SplitOnConcat('.', x, z);
  }

  lemma UnderParts(z: string, n: string) returns (x: string)
    requires Under(z, n) && LabelsOf(z) != LabelsOf(n)
    ensures n == x + ['.'] + z
  {
    var a := LabelsOf(n)[..|LabelsOf(n)| - |LabelsOf(z)|];
    assert LabelsOf(n) == a + LabelsOf(z);
    JoinSplitOn('.', z);
    JoinSplitOn('.', n);
    JoinWithConcat('.', a, LabelsOf(z));
    x := JoinWith('.', a);
  }

  /** The test on strings is the test on labels, for any two strings. */
  lemma EndsInIsUnder(z: string, n: string)
    ensures EndsIn(z, n) <==> Under(z, n)
  {
    if EndsIn(z, n) && n != z {
      var x := EndsParts(z, n);
      ConcatUnder(x, z);
    }
    if Under(z, n) {
      if LabelsOf(z) == LabelsOf(n) {
        JoinSplitOn('.', z);
        JoinSplitOn('.', n);
      } else {
        var x := UnderParts(z, n);
        ConcatEnds(x, z);
      }
    }
  }
}
