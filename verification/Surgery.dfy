/** Line surgery seen as surgery on entries: dropping, rewriting and appending whole entries. */
module Surgery {
  import opened Tokenizer
  import opened Resolver
  import opened ZoneFile
  import opened Rescan

  /** The elements of `s` whose number is not in `dead`, the first being number `n`. */
  function Keep<T>(s: seq<T>, dead: set<nat>, n: nat): seq<T>
    decreases |s|
  {
    if s == [] then [] else (if n in dead then [] else [s[0]]) + Keep(s[1..], dead, n + 1)
  }

  /** Drop the entries of the records numbered in `dead`; `n` numbers the first record. */
  function KeepChunks(cs: seq<seq<string>>, dead: set<nat>, n: nat): (r: seq<seq<string>>)
    requires forall i :: 0 <= i < |cs| ==> cs[i] != []
    ensures forall i :: 0 <= i < |r| ==> r[i] != []
  {
    if cs == [] then []
    else if KindOf(cs[0][0]).Record? then
      (if n in dead then [] else [cs[0]]) + KeepChunks(cs[1..], dead, n + 1)
    else [cs[0]] + KeepChunks(cs[1..], dead, n)
  }

  function KeepItems(items: seq<Item>, dead: set<nat>, n: nat): seq<Item>
    decreases |items|
  {
    if items == [] then []
    else if items[0].kind.Record? then
      (if n in dead then [] else [items[0]]) + KeepItems(items[1..], dead, n + 1)
    else [items[0]] + KeepItems(items[1..], dead, n)
  }

  lemma ChunkItemsConcat(a: seq<seq<string>>, b: seq<seq<string>>)
    requires forall i :: 0 <= i < |a| ==> a[i] != []
    requires forall i :: 0 <= i < |b| ==> b[i] != []
    ensures forall i :: 0 <= i < |a + b| ==> (a + b)[i] != []
    ensures ChunkItems(a + b) == ChunkItems(a) + ChunkItems(b)
  {
  }

  lemma ChunkItemsHead(cs: seq<seq<string>>)
    requires cs != [] && forall i :: 0 <= i < |cs| ==> cs[i] != []
    ensures ChunkItems(cs) != [] && ChunkItems(cs)[0] == ChunkItem(cs[0])
    ensures ChunkItems(cs)[1..] == ChunkItems(cs[1..])
  {
  }

  lemma {:induction false} KeepChunkItems(cs: seq<seq<string>>, dead: set<nat>, n: nat)
    requires forall i :: 0 <= i < |cs| ==> cs[i] != []
    ensures ChunkItems(KeepChunks(cs, dead, n)) == KeepItems(ChunkItems(cs), dead, n)
  {
    if cs != [] {
      var rec := KindOf(cs[0][0]).Record?;
      var m := if rec then n + 1 else n;
      KeepChunkItems(cs[1..], dead, m);
      ChunkItemsHead(cs);
      var rest := KeepChunks(cs[1..], dead, m);
      if !(rec && n in dead) {
        ChunkItemsConcat([cs[0]], rest);
        assert ChunkItems([cs[0]]) == [ChunkItem(cs[0])];
      }
    }
  }

  lemma {:induction false} KeepClosed(cs: seq<seq<string>>, dead: set<nat>, n: nat)
    requires forall i :: 0 <= i < |cs| ==> cs[i] != [] && Closed(cs[i])
    ensures forall i :: 0 <= i < |KeepChunks(cs, dead, n)| ==> Closed(KeepChunks(cs, dead, n)[i])
  {
    if cs != [] {
      KeepClosed(cs[1..], dead, if KindOf(cs[0][0]).Record? then n + 1 else n);
    }
  }

  // ----- Dropping lines -----

  lemma KeepLinesHead(a: seq<string>, del: set<nat>, off: nat)
    requires a != []
    ensures KeepLines(a, del, off) == (if off in del then [] else [a[0]]) + KeepLines(a[1..], del, off + 1)
  {
  }

  lemma {:induction false} KeepLinesConcat(a: seq<string>, b: seq<string>, del: set<nat>, off: nat)
    ensures KeepLines(a + b, del, off) == KeepLines(a, del, off) + KeepLines(b, del, off + |a|)
  {
    if a == [] {
      assert a + b == b;
    } else {
      KeepLinesConcat(a[1..], b, del, off + 1);
      assert (a + b)[0] == a[0] && (a + b)[1..] == a[1..] + b;
      KeepLinesHead(a, del, off);
      KeepLinesHead(a + b, del, off);
    }
  }

  lemma {:induction false} KeepLinesAll(a: seq<string>, del: set<nat>, off: nat)
    requires forall l :: off <= l < off + |a| ==> l !in del
    ensures KeepLines(a, del, off) == a
  {
    if a != [] {
      KeepLinesAll(a[1..], del, off + 1);
      assert a == [a[0]] + a[1..];
    }
  }

  /** The line numbers `del` are exactly those of the dead records, each of one line. */
  ghost predicate Agrees(cs: seq<seq<string>>, off: nat, n: nat, del: set<nat>, dead: set<nat>)
    requires forall i :: 0 <= i < |cs| ==> cs[i] != []
  {
    cs != [] ==>
      && (if KindOf(cs[0][0]).Record? && n in dead then |cs[0]| == 1 && off in del
          else forall l :: off <= l < off + |cs[0]| ==> l !in del)
      && Agrees(cs[1..], off + |cs[0]|, if KindOf(cs[0][0]).Record? then n + 1 else n, del, dead)
  }

  lemma {:induction false} KeepLinesChunks(cs: seq<seq<string>>, off: nat, n: nat, del: set<nat>, dead: set<nat>)
    requires forall i :: 0 <= i < |cs| ==> cs[i] != []
    requires Agrees(cs, off, n, del, dead)
    ensures KeepLines(Flatten(cs), del, off) == Flatten(KeepChunks(cs, dead, n))
  {
    if cs != [] {
      KeepLinesConcat(cs[0], Flatten(cs[1..]), del, off);
      var rec := KindOf(cs[0][0]).Record?;
      KeepLinesChunks(cs[1..], off + |cs[0]|, if rec then n + 1 else n, del, dead);
      if rec && n in dead {
        assert cs[0] == [cs[0][0]];
        assert KeepLines(cs[0][1..], del, off + 1) == [];
        assert KeepLines(cs[0], del, off) == [];
        assert KeepChunks(cs, dead, n) == KeepChunks(cs[1..], dead, n + 1);
      } else {
        KeepLinesAll(cs[0], del, off);
        var k := KeepChunks(cs, dead, n);
        assert k[0] == cs[0] && k[1..] == KeepChunks(cs[1..], dead, if rec then n + 1 else n);
      }
    }
  }

  lemma {:induction false} RecordStarts(cs: seq<seq<string>>, off: nat)
    requires forall i :: 0 <= i < |cs| ==> cs[i] != []
    ensures forall k :: 0 <= k < |RecordEntries(EntriesOf(cs, off))| ==>
              off <= RecordEntries(EntriesOf(cs, off))[k].start
  {
    if cs != [] {
      RecordStarts(cs[1..], off + |cs[0]|);
      assert EntriesOf(cs, off)[1..] == EntriesOf(cs[1..], off + |cs[0]|);
    }
  }

  /** Line `l` is the first line of a dead record. */
  ghost predicate DeadLine(recs: seq<Entry>, n: nat, dead: set<nat>, l: nat) {
    exists j :: j in dead && n <= j < n + |recs| && recs[j - n].start == l
  }

  /** Record `j`, if it is one of `recs`, is on one line, and that line is in `del`. */
  ghost predicate MarkedAlone(recs: seq<Entry>, n: nat, del: set<nat>, j: nat) {
    n <= j < n + |recs| ==> recs[j - n].start == recs[j - n].end && recs[j - n].start in del
  }

  /** `del` holds the lines of the dead records, each of one line, and from `off` on no other. */
  ghost predicate Marks(recs: seq<Entry>, off: nat, n: nat, del: set<nat>, dead: set<nat>) {
    && (forall j :: j in dead ==> MarkedAlone(recs, n, del, j))
    && (forall l :: l in del && off <= l ==> DeadLine(recs, n, dead, l))
  }

  lemma DeadLineTail(e: Entry, recs: seq<Entry>, n: nat, dead: set<nat>, l: nat)
    requires DeadLine([e] + recs, n, dead, l)
    ensures (n in dead && e.start == l) || DeadLine(recs, n + 1, dead, l)
  {
    var all := [e] + recs;
    var j :| j in dead && n <= j < n + |all| && all[j - n].start == l;
    if j > n {
      assert recs[j - (n + 1)] == all[j - n];
    }
  }

  lemma DeadLineAt(recs: seq<Entry>, n: nat, dead: set<nat>, l: nat) returns (k: nat)
    requires DeadLine(recs, n, dead, l)
    ensures k < |recs| && recs[k].start == l
  {
    var j :| j in dead && n <= j < n + |recs| && recs[j - n].start == l;
    k := j - n;
  }

  lemma MarkedAloneTail(e: Entry, recs: seq<Entry>, n: nat, del: set<nat>, j: nat)
    requires MarkedAlone([e] + recs, n, del, j)
    ensures MarkedAlone(recs, n + 1, del, j)
    ensures j == n ==> e.start == e.end && e.start in del
  {
    assert n + 1 <= j < n + 1 + |recs| ==> recs[j - (n + 1)] == ([e] + recs)[j - n];
  }

  lemma MarksFirst(e: Entry, recs: seq<Entry>, n: nat, dead: set<nat>, l: nat)
    requires DeadLine([e] + recs, n, dead, l)
    requires forall k :: 0 <= k < |recs| ==> e.end < recs[k].start
    ensures l > e.end && e.start <= e.end ==> DeadLine(recs, n + 1, dead, l)
    ensures l <= e.end ==> n in dead
  {
    DeadLineTail(e, recs, n, dead, l);
    if DeadLine(recs, n + 1, dead, l) {
      var k := DeadLineAt(recs, n + 1, dead, l);
    }
  }

  lemma MarksTail(e: Entry, recs: seq<Entry>, off: nat, n: nat, del: set<nat>, dead: set<nat>)
    requires Marks([e] + recs, off, n, del, dead)
    requires forall k :: 0 <= k < |recs| ==> e.end < recs[k].start
    requires e.start == off <= e.end
    ensures Marks(recs, e.end + 1, n + 1, del, dead)
    ensures n in dead ==> e.start == e.end && e.start in del
    ensures n !in dead ==> forall l :: e.start <= l <= e.end ==> l !in del
  {
    forall j | j in dead
      ensures MarkedAlone(recs, n + 1, del, j)
      ensures j == n ==> e.start == e.end && e.start in del
    {
      MarkedAloneTail(e, recs, n, del, j);
    }
    forall l | l in del && off <= l
      ensures l > e.end ==> DeadLine(recs, n + 1, dead, l)
      ensures l <= e.end ==> n in dead
    {
      MarksFirst(e, recs, n, dead, l);
    }
  }

  lemma MarksSkip(recs: seq<Entry>, off: nat, off': nat, n: nat, del: set<nat>, dead: set<nat>)
    requires Marks(recs, off, n, del, dead) && off <= off'
    requires forall k :: 0 <= k < |recs| ==> off' <= recs[k].start
    ensures Marks(recs, off', n, del, dead)
    ensures forall l :: off <= l < off' ==> l !in del
  {
    forall l | off <= l < off' ensures l !in del {
      if l in del {
        var k := DeadLineAt(recs, n, dead, l);
      }
    }
  }

  /** Marking the first lines of the dead records agrees with dropping their entries. */
  lemma {:induction false} MarksAgree(cs: seq<seq<string>>, off: nat, n: nat, del: set<nat>, dead: set<nat>)
    requires forall i :: 0 <= i < |cs| ==> cs[i] != []
    requires Marks(RecordEntries(EntriesOf(cs, off)), off, n, del, dead)
    ensures Agrees(cs, off, n, del, dead)
  {
    if cs != [] {
      var es := EntriesOf(cs, off);
      var off' := off + |cs[0]|;
      assert es[1..] == EntriesOf(cs[1..], off');
      var recs' := RecordEntries(es[1..]);
      RecordStarts(cs[1..], off');
      if KindOf(cs[0][0]).Record? {
        assert RecordEntries(es) == [es[0]] + recs';
        MarksTail(es[0], recs', off, n, del, dead);
        MarksAgree(cs[1..], off', n + 1, del, dead);
      } else {
        assert RecordEntries(es) == recs';
        MarksSkip(recs', off, off', n, del, dead);
        MarksAgree(cs[1..], off', n, del, dead);
      }
    }
  }

  // ----- Rewriting one entry -----

  lemma {:induction false} FlattenConcat(a: seq<seq<string>>, b: seq<seq<string>>)
    ensures Flatten(a + b) == Flatten(a) + Flatten(b)
  {
    if a == [] {
      assert a + b == b;
    } else {
      FlattenConcat(a[1..], b);
      assert (a + b)[1..] == a[1..] + b;
    }
  }

  function CountRecords(items: seq<Item>): nat
    decreases |items|
  {
    if items == [] then 0 else (if items[0].kind.Record? then 1 else 0) + CountRecords(items[1..])
  }

  /** Record `r` is entry `s`, which starts on line `o`. */
  ghost predicate ChunkAt(cs: seq<seq<string>>, off: nat, r: nat, s: nat, o: nat)
    requires forall i :: 0 <= i < |cs| ==> cs[i] != []
    requires r < |RecordEntries(EntriesOf(cs, off))|
  {
    && s < |cs| && KindOf(cs[s][0]).Record?
    && o == off + |Flatten(cs[..s])|
    && RecordEntries(EntriesOf(cs, off))[r] == EntryOf(cs[s], o)
    && CountRecords(ChunkItems(cs[..s])) == r
  }

  lemma RecordEntriesTail(cs: seq<seq<string>>, off: nat)
    requires cs != [] && forall i :: 0 <= i < |cs| ==> cs[i] != []
    ensures RecordEntries(EntriesOf(cs, off))
            == (if KindOf(cs[0][0]).Record? then [EntryOf(cs[0], off)] else [])
               + RecordEntries(EntriesOf(cs[1..], off + |cs[0]|))
  {
    assert EntriesOf(cs, off)[1..] == EntriesOf(cs[1..], off + |cs[0]|);
  }

  lemma ChunksBefore(cs: seq<seq<string>>, s: nat)
    requires 0 < s <= |cs| && forall i :: 0 <= i < |cs| ==> cs[i] != []
    ensures |Flatten(cs[..s])| == |cs[0]| + |Flatten(cs[1..][..s - 1])|
    ensures CountRecords(ChunkItems(cs[..s]))
            == (if KindOf(cs[0][0]).Record? then 1 else 0) + CountRecords(ChunkItems(cs[1..][..s - 1]))
  {
    assert cs[..s][1..] == cs[1..][..s - 1];
    assert ChunkItems(cs[..s])[1..] == ChunkItems(cs[1..][..s - 1]);
  }

  /** Record number `r` of the file is some entry `s`, starting on line `off`. */
  lemma {:induction false} FindChunk(cs: seq<seq<string>>, off: nat, r: nat) returns (s: nat, o: nat)
    requires forall i :: 0 <= i < |cs| ==> cs[i] != []
    requires r < |RecordEntries(EntriesOf(cs, off))|
    ensures ChunkAt(cs, off, r, s, o)
  {
    RecordEntriesTail(cs, off);
    var rec := KindOf(cs[0][0]).Record?;
    if rec && r == 0 {
      s, o := 0, off;
      assert cs[..0] == [];
    } else {
      var s', o' := FindChunk(cs[1..], off + |cs[0]|, if rec then r - 1 else r);
      s, o := s' + 1, o';
      ChunksBefore(cs, s);
    }
  }

  /** Rewriting a line inside entry `s` rewrites that entry. */
  lemma FlattenUpdate(cs: seq<seq<string>>, s: nat, l: nat, line: string)
    requires s < |cs| && l < |cs[s]|
    ensures var o := |Flatten(cs[..s])|;
            && o + l < |Flatten(cs)|
            && Flatten(cs)[o + l] == cs[s][l]
            && Flatten(cs)[o + l := line] == Flatten(cs[s := cs[s][l := line]])
  {
    var c' := cs[s][l := line];
    assert cs == cs[..s] + ([cs[s]] + cs[s + 1..]);
    assert cs[s := c'] == cs[..s] + ([c'] + cs[s + 1..]);
    FlattenConcat(cs[..s], [cs[s]] + cs[s + 1..]);
    FlattenConcat(cs[..s], [c'] + cs[s + 1..]);
    assert ([cs[s]] + cs[s + 1..])[1..] == cs[s + 1..];
    assert ([c'] + cs[s + 1..])[1..] == cs[s + 1..];
  }

  lemma {:induction false} AgreesUpdate(cs: seq<seq<string>>, s: nat, c: seq<string>, off: nat, n: nat, del: set<nat>,
                                        dead: set<nat>)
    requires forall i :: 0 <= i < |cs| ==> cs[i] != []
    requires s < |cs| && c != [] && |c| == |cs[s]| && KindOf(c[0]) == KindOf(cs[s][0])
    requires Agrees(cs, off, n, del, dead)
    ensures Agrees(cs[s := c], off, n, del, dead)
  {
    if s == 0 {
      assert cs[s := c][1..] == cs[1..];
    } else {
      AgreesUpdate(cs[1..], s - 1, c, off + |cs[0]|, if KindOf(cs[0][0]).Record? then n + 1 else n, del, dead);
      assert cs[s := c][1..] == cs[1..][s - 1 := c];
    }
  }

  // ----- Appending lines -----

  function Singles(lines: seq<string>): (r: seq<seq<string>>)
    ensures |r| == |lines|
    ensures forall i :: 0 <= i < |r| ==> r[i] == [lines[i]]
  {
    seq(|lines|, i requires 0 <= i < |lines| => [lines[i]])
  }

  lemma {:induction false} FlattenSingles(lines: seq<string>)
    ensures Flatten(Singles(lines)) == lines
  {
    if lines != [] {
      FlattenSingles(lines[1..]);
      assert Singles(lines)[1..] == Singles(lines[1..]);
      assert lines == [lines[0]] + lines[1..];
    }
  }

  function AppendChunks(cs: seq<seq<string>>, adds: seq<string>): seq<seq<string>> {
    if adds == [] then cs
    else if cs != [] && cs[|cs| - 1] == [""] then cs[..|cs| - 1] + Singles(adds) + [[""]]
    else cs + Singles(adds)
  }

  lemma {:induction false} OpenBeforeLast(a: seq<string>, depth: int)
    requires a != [] && More(a, depth) == |a|
    ensures depth + NetDepth(a[..|a| - 1]) > 0
  {
    if |a| > 1 {
      OpenBeforeLast(a[1..], depth + Delta(a[0]));
      assert a[..|a| - 1][1..] == a[1..][..|a| - 2];
    }
  }

  /** A complete entry that ends with an empty line is that empty line. */
  lemma EmptyLineAlone(c: seq<string>)
    requires Closed(c) && c[|c| - 1] == ""
    ensures c == [""]
  {
    if |c| > 1 {
      var a := c[1..];
      OpenBeforeLast(a, Delta(c[0]));
      assert a == a[..|a| - 1] + [""];
      NetDepthAppend(a[..|a| - 1], "");
      assert false;
    }
  }

  lemma FlattenLast(cs: seq<seq<string>>)
    requires cs != []
    ensures Flatten(cs) == Flatten(cs[..|cs| - 1]) + cs[|cs| - 1]
  {
    var n := |cs| - 1;
    assert cs == cs[..n] + [cs[n]];
    FlattenConcat(cs[..n], [cs[n]]);
    assert [cs[n]][1..] == [];
    assert Flatten([cs[n]]) == cs[n];
  }

  lemma FlattenBeforeBlank(front: seq<seq<string>>, adds: seq<string>)
    ensures Flatten(front + Singles(adds) + [[""]]) == Flatten(front) + adds + [""]
  {
    FlattenSingles(adds);
    FlattenConcat(front, Singles(adds));
    var all := front + Singles(adds) + [[""]];
    FlattenLast(all);
    assert all[..|all| - 1] == front + Singles(adds);
  }

  lemma AppendLinesChunks(cs: seq<seq<string>>, adds: seq<string>)
    requires forall i :: 0 <= i < |cs| ==> Closed(cs[i])
    ensures AppendLines(Flatten(cs), adds) == Flatten(AppendChunks(cs, adds))
  {
    if adds != [] {
      if cs != [] && cs[|cs| - 1] == [""] {
        var n := |cs| - 1;
        FlattenLast(cs);
        FlattenBeforeBlank(cs[..n], adds);
        assert Flatten(cs)[..|Flatten(cs)| - 1] == Flatten(cs[..n]);
      } else {
        FlattenSingles(adds);
        FlattenConcat(cs, Singles(adds));
        if cs != [] {
          LastLineNotEmpty(cs);
        }
      }
    }
  }

  lemma LastLineNotEmpty(cs: seq<seq<string>>)
    requires cs != [] && Closed(cs[|cs| - 1]) && cs[|cs| - 1] != [""]
    ensures Flatten(cs) != [] && Flatten(cs)[|Flatten(cs)| - 1] != ""
  {
    var c := cs[|cs| - 1];
    FlattenLast(cs);
    assert Flatten(cs)[|Flatten(cs)| - 1] == c[|c| - 1];
    if c[|c| - 1] == "" {
      EmptyLineAlone(c);
    }
  }
}
