/** Writing and deleting `line` rows: the conflict policy of add_line and
    add_lines, and remove() together with the syncPartfunc after-delete
    trigger. The clock is the `now` parameter. */
module LineRepo {
  import opened Lines
  import opened Schema

  /** Python's substring test `sub in s`. */
  predicate Contains(s: string, sub: string)
    decreases |s|
  {
    |sub| <= |s| && (s[..|sub|] == sub || Contains(s[1..], sub))
  }

  /** `sub` occurs in `s` starting at index i. */
  predicate OccursAt(s: string, sub: string, i: int) {
    0 <= i && i + |sub| <= |s| && s[i..i + |sub|] == sub
  }

  /** The recursive substring test agrees with "occurs at some index". */
  lemma {:induction false} ContainsOccurs(s: string, sub: string)
    ensures Contains(s, sub) <==> exists i :: OccursAt(s, sub, i)
    decreases |s|
  {
    if |sub| <= |s| {
      if s[..|sub|] == sub {
        assert OccursAt(s, sub, 0);
      } else {
        ContainsOccurs(s[1..], sub);
        if Contains(s[1..], sub) {
          var i :| OccursAt(s[1..], sub, i);
          assert s[1..][i..i + |sub|] == s[i + 1..i + 1 + |sub|];
          assert OccursAt(s, sub, i + 1);
        }
        if i :| OccursAt(s, sub, i) {
          assert s[..|sub|] == s[0..|sub|];
          assert s[1..][i - 1..i - 1 + |sub|] == s[i..i + |sub|];
          assert OccursAt(s[1..], sub, i - 1);
        }
      }
    }
  }

  /** A plain (non-update) insert still replaces and re-dates lines read from
      a live catalog or from a .cat file. */
  predicate StampedOnInsert(l: Line)
    ensures StampedOnInsert(l) <==> l.dbsource in Origins || exists i :: OccursAt(l.dbsource, ".cat", i)
  {
    ContainsOccurs(l.dbsource, ".cat");
    l.dbsource in Origins || Contains(l.dbsource, ".cat")
  }

  /** The key a line is stored under. */
  function LineKeyOf(l: Line): LineKey {
    KeyOf(ToRow(l, l.date))
  }

  /** `insert into line`: a row whose key is taken raises IntegrityError,
      which the callers swallow. */
  function InsertRow(rows: seq<Row>, row: Row): (r: seq<Row>)
    ensures HasKey(rows, KeyOf(row)) ==> r == rows
    ensures !HasKey(rows, KeyOf(row)) ==> r == rows + [row]
    ensures UniqueKeys(rows) ==> UniqueKeys(r)
  {
    if HasKey(rows, KeyOf(row)) then rows
    else
      AppendUnique(rows, row);
      rows + [row]
  }

  /** `insert or replace into line`: the row holding the key, if any, is
      deleted and the new row takes a fresh, highest rowid; every other row
      keeps its place. */
  function ReplaceRow(rows: seq<Row>, row: Row): (r: seq<Row>)
    ensures forall x :: x in r <==> (x in rows && KeyOf(x) != KeyOf(row)) || x == row
    ensures |r| > 0 && r[|r| - 1] == row
    ensures UniqueKeys(rows) ==> UniqueKeys(r)
    ensures !HasKey(rows, KeyOf(row)) ==> r == rows + [row]
    ensures UniqueKeys(rows) ==>
              forall i :: 0 <= i < |rows| && KeyOf(rows[i]) == KeyOf(row) ==> r == rows[..i] + rows[i + 1..] + [row]
  {
    var rest := DeleteKey(rows, KeyOf(row));
    AppendUnique(rest, row);
    rest + [row]
  }

  /** The date stored with a line: an upsert takes the clock for lines
      whose origin is a live catalog, a plain insert for lines it stamps;
      every other line keeps the date it carries. */
  function StoredDate(l: Line, update: bool, now: string): (d: string)
    ensures update && l.origin in Origins ==> d == now
    ensures update && l.origin !in Origins ==> d == l.date
    ensures !update && StampedOnInsert(l) ==> d == now
    ensures !update && !StampedOnInsert(l) ==> d == l.date
    ensures d == now || d == l.date
  {
    if update then
      (if l.origin in Origins then now else l.date)
    else
      (if StampedOnInsert(l) then now else l.date)
  }

  /** add_line(line, update) on an open store. */
  function AddLine(s: Store, l: Line, update: bool, now: string): (r: Store)
    ensures r.partfuncs == s.partfuncs && r.info == s.info
    ensures Valid(s) ==> Valid(r)
    ensures NoOrphans(s) ==> NoOrphans(r)
    // the line's key is present afterwards, and no other key appears or goes
    ensures forall k :: HasKey(r.lines, k) <==> HasKey(s.lines, k) || k == LineKeyOf(l)
    // a plain insert that collides changes nothing and reports nothing
    ensures !update && !StampedOnInsert(l) && HasKey(s.lines, LineKeyOf(l)) ==> r == s
    ensures !update && !StampedOnInsert(l) && !HasKey(s.lines, LineKeyOf(l)) ==>
              r.lines == s.lines + [ToRow(l, l.date)]
    // rows under every other key are untouched
    ensures forall x :: KeyOf(x) != LineKeyOf(l) ==> (x in r.lines <==> x in s.lines)
    // otherwise exactly the same-key row is replaced
    ensures update || StampedOnInsert(l) ==>
              forall x :: x in r.lines <==>
                (x in s.lines && KeyOf(x) != LineKeyOf(l)) || x == ToRow(l, StoredDate(l, update, now))
    // ... the other rows keep their order, and the new row comes last
    ensures (update || StampedOnInsert(l)) && !HasKey(s.lines, LineKeyOf(l)) ==>
              r.lines == s.lines + [ToRow(l, StoredDate(l, update, now))]
    ensures (update || StampedOnInsert(l)) && UniqueKeys(s.lines) ==>
              forall i :: 0 <= i < |s.lines| && KeyOf(s.lines[i]) == LineKeyOf(l) ==>
                r.lines == s.lines[..i] + s.lines[i + 1..] + [ToRow(l, StoredDate(l, update, now))]
  {
    var row := ToRow(l, StoredDate(l, update, now));
    if update || StampedOnInsert(l) then
      var r := s.(lines := ReplaceRow(s.lines, row));
      assert forall k :: HasKey(r.lines, k) ==> HasKey(s.lines, k) || k == LineKeyOf(l);
      assert forall t :: HasTriple(s.lines, t) ==> HasTriple(r.lines, t) by {
        forall t | HasTriple(s.lines, t) ensures HasTriple(r.lines, t) {
          var x :| x in s.lines && TripleOf(x) == t;
          if KeyOf(x) == KeyOf(row) {
            assert row in r.lines && TripleOf(row) == t;
          } else {
            assert x in r.lines;
          }
        }
      }
      r
    else
      var r := s.(lines := InsertRow(s.lines, row));
      assert forall x :: x in s.lines ==> x in r.lines;
      r
  }

  /** The reference for add_lines: add_line applied to each line in turn,
      with colliding lines skipped. */
  function AddEach(s: Store, lines: seq<Line>, update: bool, now: string): (r: Store)
    ensures r.partfuncs == s.partfuncs && r.info == s.info
    ensures Valid(s) ==> Valid(r)
    ensures NoOrphans(s) ==> NoOrphans(r)
    ensures forall k :: HasKey(r.lines, k) <==> HasKey(s.lines, k) || k in LineKeys(lines)
    ensures forall x :: KeyOf(x) !in LineKeys(lines) ==> (x in r.lines <==> x in s.lines)
    decreases |lines|
  {
    if lines == [] then s
    else
      var init := lines[..|lines| - 1];
      assert lines == init + [lines[|lines| - 1]];
      assert LineKeys(lines) == LineKeys(init) + {LineKeyOf(lines[|lines| - 1])};
      AddLine(AddEach(s, init, update, now), lines[|lines| - 1], update, now)
  }

  /** The keys of a batch of lines. */
  function LineKeys(lines: seq<Line>): set<LineKey> {
    set l | l in lines :: LineKeyOf(l)
  }

  /** The keys remove() deletes for a batch of lines. */
  function RemovalKeys(lines: seq<Line>): set<LineKey> {
    set l | l in lines :: RemovalKey(l)
  }

  /** The key remove() deletes for a line: its dbsource column is matched
      against the record's `prev`, not its `dbsource`. */
  function RemovalKey(l: Line): (k: LineKey)
    ensures k == LineKeyOf(l.(dbsource := l.prev))
    ensures l.prev == l.dbsource ==> k == LineKeyOf(l)
  {
    LineKey(l.species, l.upperLevel.quantumNumbers, l.lowerLevel.quantumNumbers, l.origin, l.prev)
  }

  /** The record search() returns for a row deletes that very row. */
  lemma RemovalKeyOfReconstruct(x: Row)
    ensures RemovalKey(Reconstruct(x)) == KeyOf(x)
  {
  }

  /** One `delete from line` of remove(), followed by the syncPartfunc
      trigger for the deleted row: when no remaining row shares its species,
      origin and dbsource, the partition function with that key goes too. */
  function RemoveOne(s: Store, l: Line): (r: Store)
    ensures forall x :: x in r.lines <==> x in s.lines && KeyOf(x) != RemovalKey(l)
    // a delete that matches nothing changes nothing; one that matches closes
    // the table up around the deleted row, the rest keeping their order
    ensures !HasKey(s.lines, RemovalKey(l)) ==> r == s
    ensures UniqueKeys(s.lines) ==>
              forall i :: 0 <= i < |s.lines| && KeyOf(s.lines[i]) == RemovalKey(l) ==>
                r.lines == s.lines[..i] + s.lines[i + 1..]
    ensures r.info == s.info
    ensures forall t :: t in r.partfuncs ==> t in s.partfuncs && r.partfuncs[t] == s.partfuncs[t]
    ensures forall t :: t in s.partfuncs && t != PfKey(l.species, l.origin, l.prev) ==> t in r.partfuncs
    ensures PfKey(l.species, l.origin, l.prev) in r.partfuncs <==>
              PfKey(l.species, l.origin, l.prev) in s.partfuncs &&
              (!HasKey(s.lines, RemovalKey(l)) || HasTriple(r.lines, PfKey(l.species, l.origin, l.prev)))
    ensures Valid(s) ==> Valid(r)
    ensures NoOrphans(s) ==> NoOrphans(r)
  {
    var k := RemovalKey(l);
    if !HasKey(s.lines, k) then
      // nothing deleted, so the trigger does not fire
      s
    else
      DeleteKeepsOrphanFree(s, k);
      SyncPartfunc(s.(lines := DeleteKey(s.lines, k)), PfKey(l.species, l.origin, l.prev))
  }

  /** The syncPartfunc after-delete trigger, run for a deleted row whose
      partition-function key is t: when no remaining line has that species,
      origin and dbsource, the partition function under t is deleted. */
  function SyncPartfunc(s: Store, t: PfKey): (r: Store)
    ensures r.lines == s.lines && r.info == s.info
    ensures forall u :: u in r.partfuncs <==> u in s.partfuncs && (u != t || HasTriple(s.lines, t))
    ensures forall u :: u in r.partfuncs ==> r.partfuncs[u] == s.partfuncs[u]
    ensures Valid(s) ==> Valid(r)
    // only the partition function under t can have lost its last line
    ensures (forall u :: u in s.partfuncs && u != t ==> HasTriple(s.lines, u)) ==> NoOrphans(r)
  {
    if HasTriple(s.lines, t) then s
    else s.(partfuncs := s.partfuncs - {t})
  }

  /** After deleting a key from an orphan-free store, every partition
      function other than the deleted row's still has a line. */
  lemma DeleteKeepsOrphanFree(s: Store, k: LineKey)
    ensures NoOrphans(s) ==>
              forall t :: t in s.partfuncs && t != PfKey(k.species, k.origin, k.dbsource) ==>
                HasTriple(DeleteKey(s.lines, k), t)
  {
    if NoOrphans(s) {
      forall t | t in s.partfuncs && t != PfKey(k.species, k.origin, k.dbsource)
        ensures HasTriple(DeleteKey(s.lines, k), t)
      {
        DeleteKeepsTriple(s.lines, k, t);
      }
    }
  }

  /** The batch up to line i + 1 is the batch up to line i followed by
      one more add_line. */
  lemma AddEachStep(s: Store, lines: seq<Line>, i: nat, update: bool, now: string)
    requires i < |lines|
    ensures AddEach(s, lines[..i + 1], update, now) == AddLine(AddEach(s, lines[..i], update, now), lines[i], update, now)
  {
    assert lines[..i + 1][..i] == lines[..i];
  }

  /** The reference for remove(lines): one delete per line, in order. */
  function RemoveEach(s: Store, lines: seq<Line>): (r: Store)
    ensures forall x :: x in r.lines <==> x in s.lines && KeyOf(x) !in RemovalKeys(lines)
    ensures r.info == s.info
    ensures forall t :: t in r.partfuncs ==> t in s.partfuncs && r.partfuncs[t] == s.partfuncs[t]
    ensures Valid(s) ==> Valid(r)
    ensures NoOrphans(s) ==> NoOrphans(r)
    decreases |lines|
  {
    if lines == [] then s
    else
      var init := lines[..|lines| - 1];
      assert lines == init + [lines[|lines| - 1]];
      assert RemovalKeys(lines) == RemovalKeys(init) + {RemovalKey(lines[|lines| - 1])};
      RemoveOne(RemoveEach(s, init), lines[|lines| - 1])
  }

  /** Adding two lines with the same key leaves exactly one row with that
      key; with update it is the second line's row. */
  lemma SameKeyTwice(s: Store, a: Line, b: Line, update: bool, now: string)
    requires Valid(s) && LineKeyOf(a) == LineKeyOf(b)
    ensures var r := AddLine(AddLine(s, a, update, now), b, update, now);
            && HasKey(r.lines, LineKeyOf(b))
            && (forall x, y :: x in r.lines && y in r.lines && KeyOf(x) == LineKeyOf(b) && KeyOf(y) == LineKeyOf(b) ==> x == y)
            && (update ==> forall x :: x in r.lines && KeyOf(x) == LineKeyOf(b) ==> x == ToRow(b, StoredDate(b, true, now)))
  {
    var r := AddLine(AddLine(s, a, update, now), b, update, now);
    forall x, y | x in r.lines && y in r.lines && KeyOf(x) == LineKeyOf(b) && KeyOf(y) == LineKeyOf(b)
      ensures x == y
    {
      UniqueKeysSameRow(r.lines, x, y);
    }
  }

  /** The batch up to line i + 1 is the batch up to line i followed by
      one more delete. */
  lemma RemoveEachStep(s: Store, lines: seq<Line>, i: nat)
    requires i < |lines|
    ensures RemoveEach(s, lines[..i + 1]) == RemoveOne(RemoveEach(s, lines[..i]), lines[i])
  {
    assert lines[..i + 1][..i] == lines[..i];
  }

  /** A delete keeps every line row whose partfunc key differs from the
      deleted line's. */
  lemma RemoveOneOtherTriples(s: Store, l: Line, t: PfKey)
    requires t != PfKey(l.species, l.origin, l.prev)
    ensures HasTriple(RemoveOne(s, l).lines, t) <==> HasTriple(s.lines, t)
  {
    if HasTriple(s.lines, t) {
      var x :| x in s.lines && TripleOf(x) == t;
      assert x in RemoveOne(s, l).lines;
    }
  }

  /** Which partition functions a batch remove() keeps: exactly those that
      either still have a line row referring to them, or had none before, so
      that the trigger never fired for them. */
  lemma {:induction false} RemoveEachPartfuncs(s: Store, lines: seq<Line>)
    ensures var r := RemoveEach(s, lines);
            forall t :: t in r.partfuncs <==> t in s.partfuncs && (HasTriple(r.lines, t) || !HasTriple(s.lines, t))
    decreases |lines|
  {
    if lines != [] {
      var n := |lines| - 1;
      var l := lines[n];
      RemoveEachPartfuncs(s, lines[..n]);
      RemoveEachStep(s, lines, n);
      assert lines[..n + 1] == lines;
      var m := RemoveEach(s, lines[..n]);
      var r := RemoveEach(s, lines);
      assert r == RemoveOne(m, l);
      var tl := PfKey(l.species, l.origin, l.prev);
      forall t ensures t in r.partfuncs <==> t in s.partfuncs && (HasTriple(r.lines, t) || !HasTriple(s.lines, t)) {
        if t != tl {
          RemoveOneOtherTriples(m, l, t);
        } else if HasKey(m.lines, RemovalKey(l)) {
          var x :| x in m.lines && KeyOf(x) == RemovalKey(l);
          assert x in s.lines && TripleOf(x) == t;
        }
      }
    }
  }
}
