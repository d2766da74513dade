/** The shape of a cache store: the `line` table (rows in storage order,
    unique on species, upper and lower quantum numbers, origin and dbsource),
    the `partfunc` table (one pair of blobs per species, origin and
    dbsource), and the one-row `info` table holding the version string.
    Also the mapping between a Line record and a `line` row, both ways. */
module Schema {
  import opened Codec
  import opened Lines

  /** Catalogs whose lines are date-stamped by the cache when stored. */
  const Origins: seq<string> := ["voparis", "vamdc", "splatalogue", "cdms", "jpl"]

  /** The double -1.0, which in the first partfunc slot means "known to have no
      partition function" (IEEE-754 binary64, little-endian machine order). */
  const BlankPartfunc: Word := [0x00, 0x00, 0x00, 0x00, 0x00, 0x00, 0xF0, 0xBF]

  /** One row of the `line` table; the two levels stand for their three
      columns each. */
  datatype Row = Row(
    species: string,
    frequency: real,
    uncertainty: real,
    einsteinCoefficient: real,
    upperLevel: Level,
    lowerLevel: Level,
    origin: string,
    dbsource: string,
    date: string)

  /** The columns of the `line` table's unique constraint. */
  datatype LineKey = LineKey(species: string, upperQn: string, lowerQn: string, origin: string, dbsource: string)

  /** The columns of the `partfunc` table's unique constraint. */
  datatype PfKey = PfKey(species: string, origin: string, dbsource: string)

  /** The two blob columns of a `partfunc` row. */
  datatype PfRow = PfRow(temperature: seq<byte>, partfunc: seq<byte>)

  datatype Store = Store(lines: seq<Row>, partfuncs: map<PfKey, PfRow>, info: seq<string>)

  function KeyOf(r: Row): LineKey {
    LineKey(r.species, r.upperLevel.quantumNumbers, r.lowerLevel.quantumNumbers, r.origin, r.dbsource)
  }

  /** The partfunc key a line row refers to. */
  function TripleOf(r: Row): PfKey {
    PfKey(r.species, r.origin, r.dbsource)
  }

  predicate HasKey(rows: seq<Row>, k: LineKey) {
    exists x :: x in rows && KeyOf(x) == k
  }

  predicate HasTriple(rows: seq<Row>, t: PfKey) {
    exists x :: x in rows && TripleOf(x) == t
  }

  /** The `line` table's unique constraint. */
  predicate UniqueKeys(rows: seq<Row>) {
    forall i, j :: 0 <= i < j < |rows| ==> KeyOf(rows[i]) != KeyOf(rows[j])
  }

  predicate BlobsWellFormed(pfs: map<PfKey, PfRow>) {
    forall k :: k in pfs ==> |pfs[k].temperature| % WordSize == 0 && |pfs[k].partfunc| % WordSize == 0
  }

  /** What every store the cache builds satisfies. */
  predicate Valid(s: Store) {
    UniqueKeys(s.lines) && BlobsWellFormed(s.partfuncs)
  }

  /** Every partition function belongs to at least one line: the relation the
      after-delete trigger keeps (inserting a partition function alone can
      break it; deleting lines cannot). */
  predicate NoOrphans(s: Store) {
    forall t :: t in s.partfuncs ==> HasTriple(s.lines, t)
  }

  /** Two rows of a table with unique keys that agree on the key are the same
      row. */
  lemma UniqueKeysSameRow(rows: seq<Row>, x: Row, y: Row)
    requires UniqueKeys(rows)
    requires x in rows && y in rows && KeyOf(x) == KeyOf(y)
    ensures x == y
  {
    var i :| 0 <= i < |rows| && rows[i] == x;
    var j :| 0 <= j < |rows| && rows[j] == y;
    assert !(i < j) && !(j < i);
  }

  /** The order-preserving selection of the rows `keep` accepts: what a
      `where` clause does to a table scanned in storage order. */
  function FilterRows(rows: seq<Row>, keep: Row -> bool): (r: seq<Row>)
    ensures |r| <= |rows|
    ensures forall x :: x in r <==> x in rows && keep(x)
    ensures (forall x :: x in rows ==> keep(x)) ==> r == rows
    ensures (exists x :: x in rows && !keep(x)) ==> |r| < |rows|
  {
    if rows == [] then []
    else
      var rest := FilterRows(rows[1..], keep);
      assert forall x :: x in rows[1..] ==> x in rows;
      assert rows == [rows[0]] + rows[1..];
      if keep(rows[0]) then [rows[0]] + rest else rest
  }

  /** Deleting the row holding a unique key, if any. Like SQLite's
      `delete`, it leaves every other row where it was: the table closes up
      around the deleted row's place. */
  function DeleteKey(rows: seq<Row>, k: LineKey): (r: seq<Row>)
    ensures forall x :: x in r <==> x in rows && KeyOf(x) != k
    ensures UniqueKeys(rows) ==> UniqueKeys(r)
    ensures !HasKey(rows, k) ==> r == rows
    ensures UniqueKeys(rows) ==>
              forall i :: 0 <= i < |rows| && KeyOf(rows[i]) == k ==> r == rows[..i] + rows[i + 1..]
  {
    var keep := x => KeyOf(x) != k;
    FilterRowsUnique(rows, keep);
    forall i | 0 <= i < |rows| && KeyOf(rows[i]) == k && UniqueKeys(rows)
      ensures FilterRows(rows, keep) == rows[..i] + rows[i + 1..]
    {
      forall j | 0 <= j < |rows| && j != i ensures keep(rows[j]) {
        assert KeyOf(rows[j]) != KeyOf(rows[i]);
      }
      FilterRowsDropAt(rows, keep, i);
    }
    FilterRows(rows, keep)
  }

  /** Deleting a key keeps every partfunc key other than the deleted row's
      referenced. */
  lemma DeleteKeepsTriple(rows: seq<Row>, k: LineKey, t: PfKey)
    requires HasTriple(rows, t) && t != PfKey(k.species, k.origin, k.dbsource)
    ensures HasTriple(DeleteKey(rows, k), t)
  {
    var x :| x in rows && TripleOf(x) == t;
    assert x in DeleteKey(rows, k);
  }

  /** Filtering distributes over concatenation: rows keep their relative
      order. */
  lemma {:induction false} FilterRowsAppend(a: seq<Row>, b: seq<Row>, keep: Row -> bool)
    ensures FilterRows(a + b, keep) == FilterRows(a, keep) + FilterRows(b, keep)
  {
    if a != [] {
      assert (a + b)[1..] == a[1..] + b;
      FilterRowsAppend(a[1..], b, keep);
    } else {
      assert a + b == b;
    }
  }

  /** Filtering out exactly the row at index i leaves the rows before it
      and the rows after it, in order. */
  lemma {:induction false} FilterRowsDropAt(rows: seq<Row>, keep: Row -> bool, i: nat)
    requires i < |rows| && !keep(rows[i])
    requires forall j :: 0 <= j < |rows| && j != i ==> keep(rows[j])
    ensures FilterRows(rows, keep) == rows[..i] + rows[i + 1..]
  {
    if i == 0 {
      FilterRowsDropHead(rows, keep);
    } else {
      var tail := rows[1..];
      forall j | 0 <= j < |tail| && j != i - 1 ensures keep(tail[j]) {
        assert tail[j] == rows[j + 1];
      }
      FilterRowsDropAt(tail, keep, i - 1);
      FilterRowsKeepHead(rows, keep, i);
    }
  }

  /** Filtering out just the first row leaves the rest. */
  lemma FilterRowsDropHead(rows: seq<Row>, keep: Row -> bool)
    requires |rows| > 0 && !keep(rows[0])
    requires forall j :: 0 < j < |rows| ==> keep(rows[j])
    ensures FilterRows(rows, keep) == rows[1..]
  {
    forall x | x in rows[1..] ensures keep(x) {
      var j :| 0 <= j < |rows[1..]| && rows[1..][j] == x;
      assert rows[1 + j] == x;
    }
  }

  /** A kept first row stays in front of what the filter makes of the
      rest. */
  lemma FilterRowsKeepHead(rows: seq<Row>, keep: Row -> bool, i: nat)
    requires 0 < i < |rows| && keep(rows[0])
    requires FilterRows(rows[1..], keep) == rows[1..][..i - 1] + rows[1..][i..]
    ensures FilterRows(rows, keep) == rows[..i] + rows[i + 1..]
  {
    FilterRowsCons(rows, keep);
    ConsSplice(rows, i);
  }

  /** Putting the first row back in front of the tail with its (i-1)-th row
      cut out is the whole with its i-th row cut out. */
  lemma ConsSplice(rows: seq<Row>, i: nat)
    requires 0 < i < |rows|
    ensures [rows[0]] + (rows[1..][..i - 1] + rows[1..][i..]) == rows[..i] + rows[i + 1..]
  {
    var a, b := rows[1..][..i - 1], rows[1..][i..];
    assert a == rows[1..i] && b == rows[i + 1..];
    assert rows[..i] == [rows[0]] + a;
  }

  /** One step of the filter over a kept first row. */
  lemma FilterRowsCons(rows: seq<Row>, keep: Row -> bool)
    requires |rows| > 0 && keep(rows[0])
    ensures FilterRows(rows, keep) == [rows[0]] + FilterRows(rows[1..], keep)
  {
  }

  /** Deleting rows never breaks the unique constraint. */
  lemma {:induction false} FilterRowsUnique(rows: seq<Row>, keep: Row -> bool)
    ensures UniqueKeys(rows) ==> UniqueKeys(FilterRows(rows, keep))
  {
    if rows != [] && UniqueKeys(rows) {
      var rest := FilterRows(rows[1..], keep);
      FilterRowsUnique(rows[1..], keep);
      if keep(rows[0]) {
        forall x | x in rest
          ensures KeyOf(x) != KeyOf(rows[0])
        {
          var j :| 0 <= j < |rows[1..]| && rows[1..][j] == x;
          assert rows[j + 1] == x;
        }
        PrependUnique(rows[0], rest);
      }
    }
  }

  lemma PrependUnique(x: Row, rows: seq<Row>)
    requires UniqueKeys(rows)
    requires forall y :: y in rows ==> KeyOf(y) != KeyOf(x)
    ensures UniqueKeys([x] + rows)
  {
    var r := [x] + rows;
    forall i, j | 0 <= i < j < |r|
      ensures KeyOf(r[i]) != KeyOf(r[j])
    {
      if i == 0 {
        assert r[j] == rows[j - 1];
      } else {
        assert r[i] == rows[i - 1] && r[j] == rows[j - 1];
      }
    }
  }

  lemma AppendUnique(rows: seq<Row>, x: Row)
    requires !HasKey(rows, KeyOf(x))
    ensures UniqueKeys(rows) ==> UniqueKeys(rows + [x])
  {
    var r := rows + [x];
    forall i, j | 0 <= i < j < |r| && UniqueKeys(rows)
      ensures KeyOf(r[i]) != KeyOf(r[j])
    {
      if j == |rows| {
        assert r[i] in rows;
      } else {
        assert r[i] == rows[i] && r[j] == rows[j];
      }
    }
  }

  /** The empty store create() leaves behind. */
  function EmptyStore(version: string): (s: Store)
    ensures Valid(s) && NoOrphans(s)
    ensures |s.lines| == 0 && |s.partfuncs| == 0 && s.info == [version]
  {
    Store([], map[], [version])
  }

  /** The column values an insert binds for a line, with the date it chose. */
  function ToRow(l: Line, date: string): (r: Row)
    ensures KeyOf(r) == LineKey(l.species, l.upperLevel.quantumNumbers, l.lowerLevel.quantumNumbers, l.origin, l.dbsource)
    ensures TripleOf(r) == PfKey(l.species, l.origin, l.dbsource)
    ensures r.date == date
  {
    Row(l.species, l.frequency, l.errFrequency, l.einsteinCoefficient,
        l.upperLevel, l.lowerLevel, l.origin, l.dbsource, date)
  }

  /** The record search() builds from a row: a fresh line with every column
      copied in, except that the row's dbsource goes into `prev`. */
  function Reconstruct(r: Row): (l: Line)
    ensures l.dbsource == NewLine().dbsource
    ensures ToRow(l.(dbsource := l.prev), l.date) == r
  {
    NewLine().(
      species := r.species,
      frequency := r.frequency,
      errFrequency := r.uncertainty,
      einsteinCoefficient := r.einsteinCoefficient,
      upperLevel := r.upperLevel,
      lowerLevel := r.lowerLevel,
      origin := r.origin,
      prev := r.dbsource,
      date := r.date)
  }

  /** Storing a line and reading it back gives the line with its dbsource
      moved to `prev` and the date the store chose. */
  lemma RowRoundTrip(l: Line, date: string)
    ensures Reconstruct(ToRow(l, date)) == l.(dbsource := "", prev := l.dbsource, date := date)
  {
  }

  /** Distinct rows give distinct records. */
  lemma ReconstructInjective(x: Row, y: Row)
    requires Reconstruct(x) == Reconstruct(y)
    ensures x == y
  {
    assert ToRow(Reconstruct(x).(dbsource := Reconstruct(x).prev), Reconstruct(x).date) == x;
  }
}
