/** search(): the species-argument normalisation, the clause-by-clause
    assembly of the `where` predicate, the LIKE pattern matcher it relies on,
    and the rebuilding of Line records from the selected rows. */
module Query {
  import opened Errors
  import opened Lines
  import opened Schema
  import LineRepo

  /** The species argument: a string, a list of strings, or anything else. */
  datatype SpeciesArg = Text(text: string) | Items(items: seq<string>) | Unsupported

  datatype Filter = Filter(
    fmin: real,
    fmax: real,
    species: SpeciesArg,
    origin: string,
    dbsource: string,
    energy: real,
    einstein: real)

  /** search() called with no arguments. */
  const Defaults := Filter(-1.0, -1.0, Items([]), "All", "All", -1.0, -1.0)

  /** The species names to select on: 'All' and the empty list select on
      none, a single string is one name, any other argument is refused. */
  function SpeciesNames(a: SpeciesArg): (r: Result<seq<string>>)
    ensures r.Err? <==> a.Unsupported?
    ensures r.Err? ==> r.error == UnexpectedArgument
    ensures r.Ok? ==> (r.value == [] <==> a == Text("All") || a == Items([]))
    ensures a.Text? && a.text != "All" ==> r == Ok([a.text])
    ensures a.Items? ==> r == Ok(a.items)
  {
    match a
    case Text(t) => if t == "All" then Ok([]) else Ok([t])
    case Items(xs) => Ok(xs)
    case Unsupported => Err(UnexpectedArgument)
  }

  /** ASCII lower case: Python 2 `str.lower()`, and the case folding of
      SQLite's default LIKE. */
  function LowerChar(c: char): char {
    if 'A' <= c <= 'Z' then (c as int + 32) as char else c
  }

  function Lower(s: string): string {
    seq(|s|, i requires 0 <= i < |s| => LowerChar(s[i]))
  }

  /** Every `*` of a species name becomes the LIKE wildcard `%`. */
  function Wildcard(name: string): string {
    seq(|name|, i requires 0 <= i < |name| => if name[i] == '*' then '%' else name[i])
  }

  /** SQLite's `s LIKE p` with no ESCAPE clause: `%` matches any run of
      characters, `_` any one character, and letters compare without regard
      to ASCII case. */
  predicate Like(p: string, s: string)
    // without `%`, every pattern character consumes exactly one character
    ensures Like(p, s) && '%' !in p ==> |s| == |p|
    decreases |p| + |s|
  {
    if p == [] then s == []
    else if p[0] == '%' then Like(p[1..], s) || (s != [] && Like(p, s[1..]))
    else
      assert '%' !in p ==> '%' !in p[1..] by {
        assert forall c :: c in p[1..] ==> c in p;
      }
      s != [] && (p[0] == '_' || LowerChar(p[0]) == LowerChar(s[0])) && Like(p[1..], s[1..])
  }

  predicate SameIgnoringCase(a: string, b: string) {
    |a| == |b| && forall i :: 0 <= i < |a| ==> LowerChar(a[i]) == LowerChar(b[i])
  }

  /** Without wildcards, LIKE is equality up to ASCII case. */
  lemma {:induction false} LikeLiteral(p: string, s: string)
    requires '%' !in p && '_' !in p
    ensures Like(p, s) <==> SameIgnoringCase(p, s)
  {
    if p != [] && s != [] {
      LikeLiteral(p[1..], s[1..]);
      if SameIgnoringCase(p, s) {
        assert SameIgnoringCase(p[1..], s[1..]) by {
          forall i | 0 <= i < |p[1..]| ensures LowerChar(p[1..][i]) == LowerChar(s[1..][i]) {
            assert p[1..][i] == p[i + 1] && s[1..][i] == s[i + 1];
          }
        }
      }
      if Like(p, s) {
        forall i | 0 <= i < |p| ensures LowerChar(p[i]) == LowerChar(s[i]) {
          if i > 0 {
            assert p[1..][i - 1] == p[i] && s[1..][i - 1] == s[i];
          }
        }
      }
    }
  }

  /** A lone `%` matches every string. */
  lemma {:induction false} LikeAnything(s: string)
    ensures Like("%", s)
  {
    if s != [] {
      LikeAnything(s[1..]);
    }
  }

  /** `q%` with no wildcard in q matches exactly the strings that start with q
      up to ASCII case. */
  lemma {:induction false} LikePrefix(q: string, s: string)
    requires '%' !in q && '_' !in q
    ensures Like(q + "%", s) <==> |q| <= |s| && SameIgnoringCase(q, s[..|q|])
  {
    if q == [] {
      assert q + "%" == "%";
      LikeAnything(s);
    } else {
      assert (q + "%")[1..] == q[1..] + "%";
      assert (q + "%")[0] == q[0];
      if s != [] {
        LikePrefix(q[1..], s[1..]);
        if |q| <= |s| {
          var a, b := q[1..], s[1..][..|q| - 1];
          assert s[..|q|][1..] == b;
          if SameIgnoringCase(q, s[..|q|]) {
            forall i | 0 <= i < |a| ensures LowerChar(a[i]) == LowerChar(b[i]) {
              assert a[i] == q[i + 1] && b[i] == s[..|q|][i + 1];
            }
          }
          if SameIgnoringCase(a, b) && LowerChar(q[0]) == LowerChar(s[0]) {
            forall i | 0 <= i < |q| ensures LowerChar(q[i]) == LowerChar(s[..|q|][i]) {
              if i > 0 {
                assert a[i - 1] == q[i] && b[i - 1] == s[..|q|][i];
              }
            }
          }
        }
      }
    }
  }

  /** One species alternative of the `where` clause. */
  datatype SpeciesTest = Equals(name: string) | Matches(pattern: string)

  /** `species like ?` when the name has a wildcard after `*` became `%`,
      `species = ?` otherwise. */
  function TestFor(name: string): SpeciesTest {
    var p := Wildcard(name);
    if '%' in p then Matches(p) else Equals(p)
  }

  predicate Passes(t: SpeciesTest, species: string) {
    match t
    case Equals(n) => species == n
    case Matches(p) => Like(p, species)
  }

  /** The conjuncts search() appends to its query, in order. */
  datatype Clause =
    | FrequencyAtLeast(bound: real)
    | FrequencyAtMost(bound: real)
    | SpeciesAnyOf(tests: seq<SpeciesTest>)
    | OriginIs(value: string)
    | DbsourceIs(value: string)
    | UpperEnergyAtMost(bound: real)
    | EinsteinAtLeast(bound: real)

  predicate Holds(c: Clause, r: Row) {
    match c
    case FrequencyAtLeast(b) => r.frequency >= b
    case FrequencyAtMost(b) => r.frequency <= b
    case SpeciesAnyOf(ts) => exists i :: 0 <= i < |ts| && Passes(ts[i], r.species)
    case OriginIs(o) => r.origin == o
    case DbsourceIs(d) => r.dbsource == d
    case UpperEnergyAtMost(b) => r.upperLevel.energy <= b
    case EinsteinAtLeast(b) => r.einsteinCoefficient >= b
  }

  predicate HoldsAll(cs: seq<Clause>, r: Row) {
    if cs == [] then true else Holds(cs[0], r) && HoldsAll(cs[1..], r)
  }

  lemma {:induction false} HoldsAllAppend(a: seq<Clause>, b: seq<Clause>, r: Row)
    ensures HoldsAll(a + b, r) <==> HoldsAll(a, r) && HoldsAll(b, r)
  {
    if a == [] {
      assert a + b == b;
    } else {
      assert (a + b)[0] == a[0] && (a + b)[1..] == a[1..] + b;
      HoldsAllAppend(a[1..], b, r);
    }
  }

  /** The query search() assembles: the conjunction holds of exactly the
      rows the filter selects. */
  function BuildClauses(f: Filter, names: seq<string>): (cs: seq<Clause>)
    ensures forall r :: HoldsAll(cs, r) <==> Selected(f, names, r)
  {
    var cs := LeadingClauses(f, names) + TrailingClauses(f);
    assert forall r :: HoldsAll(cs, r) <==> Selected(f, names, r) by {
      forall r ensures HoldsAll(cs, r) <==> Selected(f, names, r) {
        HoldsAllAppend(LeadingClauses(f, names), TrailingClauses(f), r);
        LeadingClausesMeaning(f, names, r);
        TrailingClausesMeaning(f, r);
      }
    }
    cs
  }

  /** A species name selects a species: by LIKE when the name holds a
      wildcard, by plain equality with the name otherwise. */
  predicate NameSelects(name: string, species: string) {
    if '%' in Wildcard(name) then Like(Wildcard(name), species) else species == name
  }

  /** No species names, or one of them selects the species. */
  predicate SpeciesOk(names: seq<string>, species: string) {
    names == [] || exists i :: 0 <= i < |names| && NameSelects(names[i], species)
  }

  /** Which rows a filter selects, condition by condition. */
  predicate Selected(f: Filter, names: seq<string>, r: Row) {
    && r.frequency >= 0.0 && r.frequency >= f.fmin
    && (f.fmax > 0.0 ==> r.frequency <= f.fmax)
    && SpeciesOk(names, r.species)
    && (f.origin != "All" ==> r.origin == Lower(f.origin))
    && (f.dbsource != "All" ==> r.dbsource == f.dbsource)
    && (f.energy > 0.0 ==> r.upperLevel.energy <= f.energy)
    && (f.einstein > 0.0 ==> r.einsteinCoefficient >= f.einstein)
  }

  lemma TestForSelects(name: string, species: string)
    ensures Passes(TestFor(name), species) <==> NameSelects(name, species)
  {
    if '%' !in Wildcard(name) {
      assert Wildcard(name) == name by {
        forall i | 0 <= i < |name| ensures Wildcard(name)[i] == name[i] {
          assert Wildcard(name)[i] in Wildcard(name);
        }
      }
    }
  }

  /** A clause appended only when its condition holds. */
  function When(b: bool, c: Clause): seq<Clause> {
    if b then [c] else []
  }

  lemma WhenHolds(b: bool, c: Clause, r: Row)
    ensures HoldsAll(When(b, c), r) <==> (b ==> Holds(c, r))
  {
    if b {
      assert When(b, c)[1..] == [];
    }
  }

  /** The species alternatives are one parenthesised disjunction, left out
      altogether when there are no names. */
  lemma SpeciesClauseMeaning(names: seq<string>, r: Row)
    ensures var tests := seq(|names|, i requires 0 <= i < |names| => TestFor(names[i]));
            HoldsAll(When(names != [], SpeciesAnyOf(tests)), r) <==> SpeciesOk(names, r.species)
  {
    var tests := seq(|names|, i requires 0 <= i < |names| => TestFor(names[i]));
    WhenHolds(names != [], SpeciesAnyOf(tests), r);
    forall i | 0 <= i < |names| ensures Passes(tests[i], r.species) <==> NameSelects(names[i], r.species) {
      TestForSelects(names[i], r.species);
    }
  }

  /** The clauses on frequency and species. */
  function LeadingClauses(f: Filter, names: seq<string>): seq<Clause> {
    [FrequencyAtLeast(if f.fmin < 0.0 then 0.0 else f.fmin)]
    + When(f.fmax > 0.0, FrequencyAtMost(f.fmax))
    + When(names != [], SpeciesAnyOf(seq(|names|, i requires 0 <= i < |names| => TestFor(names[i]))))
  }

  /** The clauses on origin, dbsource, energy and Einstein coefficient. */
  function TrailingClauses(f: Filter): seq<Clause> {
    When(f.origin != "All", OriginIs(Lower(f.origin)))
    + When(f.dbsource != "All", DbsourceIs(f.dbsource))
    + When(f.energy > 0.0, UpperEnergyAtMost(f.energy))
    + When(f.einstein > 0.0, EinsteinAtLeast(f.einstein))
  }

  lemma LeadingClausesMeaning(f: Filter, names: seq<string>, r: Row)
    ensures HoldsAll(LeadingClauses(f, names), r) <==>
              && r.frequency >= 0.0 && r.frequency >= f.fmin
              && (f.fmax > 0.0 ==> r.frequency <= f.fmax)
              && SpeciesOk(names, r.species)
  {
    var c0 := [FrequencyAtLeast(if f.fmin < 0.0 then 0.0 else f.fmin)];
    var c1 := When(f.fmax > 0.0, FrequencyAtMost(f.fmax));
    var tests := seq(|names|, i requires 0 <= i < |names| => TestFor(names[i]));
    var c2 := When(names != [], SpeciesAnyOf(tests));
    assert HoldsAll(c0, r) <==> r.frequency >= 0.0 && r.frequency >= f.fmin by {
      assert c0[1..] == [];
    }
    HoldsAllAppend(c0, c1, r);
    WhenHolds(f.fmax > 0.0, FrequencyAtMost(f.fmax), r);
    HoldsAllAppend(c0 + c1, c2, r);
    SpeciesClauseMeaning(names, r);
  }

  lemma TrailingClausesMeaning(f: Filter, r: Row)
    ensures HoldsAll(TrailingClauses(f), r) <==>
              && (f.origin != "All" ==> r.origin == Lower(f.origin))
              && (f.dbsource != "All" ==> r.dbsource == f.dbsource)
              && (f.energy > 0.0 ==> r.upperLevel.energy <= f.energy)
              && (f.einstein > 0.0 ==> r.einsteinCoefficient >= f.einstein)
  {
    var c3 := When(f.origin != "All", OriginIs(Lower(f.origin)));
    var c4 := When(f.dbsource != "All", DbsourceIs(f.dbsource));
    var c5 := When(f.energy > 0.0, UpperEnergyAtMost(f.energy));
    var c6 := When(f.einstein > 0.0, EinsteinAtLeast(f.einstein));
    HoldsAllAppend(c3, c4, r);
    HoldsAllAppend(c3 + c4, c5, r);
    HoldsAllAppend(c3 + c4 + c5, c6, r);
    WhenHolds(f.origin != "All", OriginIs(Lower(f.origin)), r);
    WhenHolds(f.dbsource != "All", DbsourceIs(f.dbsource), r);
    WhenHolds(f.energy > 0.0, UpperEnergyAtMost(f.energy), r);
    WhenHolds(f.einstein > 0.0, EinsteinAtLeast(f.einstein), r);
  }

  /** The rows the assembled query selects, in storage order. */
  function SelectRows(rows: seq<Row>, cs: seq<Clause>): (sel: seq<Row>)
    ensures forall x :: x in sel <==> x in rows && HoldsAll(cs, x)
    ensures |sel| <= |rows|
  {
    FilterRows(rows, x => HoldsAll(cs, x))
  }

  lemma SelectRowsAppend(a: seq<Row>, b: seq<Row>, cs: seq<Clause>)
    ensures SelectRows(a + b, cs) == SelectRows(a, cs) + SelectRows(b, cs)
  {
    FilterRowsAppend(a, b, x => HoldsAll(cs, x));
  }

  /** The records search() returns for the selected rows, in the same order. */
  function ReconstructAll(rows: seq<Row>): (ls: seq<Line>)
    ensures |ls| == |rows|
    ensures forall i :: 0 <= i < |rows| ==> ls[i] == Reconstruct(rows[i])
    ensures forall x :: Reconstruct(x) in ls <==> x in rows
  {
    var ls := seq(|rows|, i requires 0 <= i < |rows| => Reconstruct(rows[i]));
    assert forall x :: Reconstruct(x) in ls ==> x in rows by {
      forall x | Reconstruct(x) in ls ensures x in rows {
        var i :| 0 <= i < |ls| && ls[i] == Reconstruct(x);
        ReconstructInjective(x, rows[i]);
      }
    }
    ls
  }

  /** search(...) on an open store: the records of exactly the selected
      rows, in storage order. */
  function Search(s: Store, f: Filter): (r: Result<seq<Line>>)
    ensures r.Err? <==> f.species.Unsupported?
    ensures r.Err? ==> r.error == UnexpectedArgument
    ensures r.Ok? ==> |r.value| <= |s.lines|
    ensures r.Ok? ==> forall x :: x in s.lines ==>
              (Reconstruct(x) in r.value <==> Selected(f, SpeciesNames(f.species).value, x))
    ensures r.Ok? ==> forall l :: l in r.value ==>
              exists x :: x in s.lines && Reconstruct(x) == l && Selected(f, SpeciesNames(f.species).value, x)
  {
    var names :- SpeciesNames(f.species);
    var cs := BuildClauses(f, names);
    Ok(ReconstructAll(SelectRows(s.lines, cs)))
  }

  /** A search that selects no stored row returns nothing. */
  lemma SearchNothingSelected(s: Store, f: Filter)
    requires !f.species.Unsupported?
    requires forall x :: x in s.lines ==> !Selected(f, SpeciesNames(f.species).value, x)
    ensures Search(s, f) == Ok([])
  {
    var names := SpeciesNames(f.species).value;
    var sel := SelectRows(s.lines, BuildClauses(f, names));
    NoMemberEmpty(sel);
  }

  lemma NoMemberEmpty(rows: seq<Row>)
    ensures (forall x :: x !in rows) ==> rows == []
  {
    if rows != [] {
      assert rows[0] in rows;
    }
  }

  /** A table of one selected row: the search returns just its record. */
  lemma SearchSingleRow(s: Store, f: Filter)
    requires !f.species.Unsupported? && |s.lines| == 1
    requires Selected(f, SpeciesNames(f.species).value, s.lines[0])
    ensures Search(s, f) == Ok([Reconstruct(s.lines[0])])
  {
    var names := SpeciesNames(f.species).value;
    var cs := BuildClauses(f, names);
    assert s.lines == [s.lines[0]];
    assert SelectRows(s.lines, cs) == s.lines;
    assert ReconstructAll(s.lines) == [Reconstruct(s.lines[0])];
  }

  /** Search keeps storage order: searching a table that is the
      concatenation of two parts returns the two parts' results in turn. */
  lemma SearchKeepsOrder(a: seq<Row>, b: seq<Row>, pfs: map<PfKey, PfRow>, info: seq<string>, f: Filter)
    requires !f.species.Unsupported?
    ensures Search(Store(a + b, pfs, info), f).value ==
            Search(Store(a, pfs, info), f).value + Search(Store(b, pfs, info), f).value
  {
    var cs := BuildClauses(f, SpeciesNames(f.species).value);
    SelectRowsAppend(a, b, cs);
    ReconstructAllAppend(SelectRows(a, cs), SelectRows(b, cs));
  }

  lemma ReconstructAllAppend(a: seq<Row>, b: seq<Row>)
    ensures ReconstructAll(a + b) == ReconstructAll(a) + ReconstructAll(b)
  {
    var la, lb, lab := ReconstructAll(a), ReconstructAll(b), ReconstructAll(a + b);
    assert |lab| == |la + lb|;
    forall i | 0 <= i < |lab|
      ensures lab[i] == (la + lb)[i]
    {
      if i < |a| {
        assert (a + b)[i] == a[i];
      } else {
        assert (a + b)[i] == b[i - |a|];
      }
    }
  }

  /** Wildcards: `CO*` selects CO and CO2 (and, as LIKE ignores ASCII case,
      co2) but not HCO; without a wildcard the match is exact. */
  lemma WildcardExamples()
    ensures NameSelects("CO*", "CO") && NameSelects("CO*", "CO2") && NameSelects("CO*", "co2")
    ensures !NameSelects("CO*", "HCO")
    ensures !NameSelects("CO", "co")
  {
    assert Wildcard("CO*") == "CO" + "%";
    assert '%' in Wildcard("CO*");
    LikePrefix("CO", "CO");
    LikePrefix("CO", "CO2");
    LikePrefix("CO", "co2");
    LikePrefix("CO", "HCO");
    assert "HCO"[..2] == "HC";
    assert LowerChar('O') != LowerChar('C');
    assert !SameIgnoringCase("CO", "HC");
    assert Wildcard("CO") == "CO";
  }

  /** The origin argument is lower-cased but the stored origin is not: a row
      whose origin holds an upper-case letter is never selected by origin. */
  lemma UpperCaseOriginNeverSelected(f: Filter, names: seq<string>, r: Row, i: nat)
    requires f.origin != "All"
    requires i < |r.origin| && 'A' <= r.origin[i] <= 'Z'
    ensures !Selected(f, names, r)
  {
  }

  /** Removing what a search returned deletes exactly the selected rows: each
      returned record carries its row's dbsource in `prev`, which is what
      remove() matches on. */
  lemma RemoveSearched(s: Store, f: Filter)
    requires Valid(s) && !f.species.Unsupported?
    ensures forall x :: x in LineRepo.RemoveEach(s, Search(s, f).value).lines <==>
              x in s.lines && !Selected(f, SpeciesNames(f.species).value, x)
  {
    var found := Search(s, f).value;
    var names := SpeciesNames(f.species).value;
    forall x | x in s.lines
      ensures KeyOf(x) in LineRepo.RemovalKeys(found) <==> Selected(f, names, x)
    {
      if Selected(f, names, x) {
        assert Reconstruct(x) in found;
        LineRepo.RemovalKeyOfReconstruct(x);
      }
      if KeyOf(x) in LineRepo.RemovalKeys(found) {
        var l :| l in found && LineRepo.RemovalKey(l) == KeyOf(x);
        var y :| y in s.lines && Reconstruct(y) == l && Selected(f, names, y);
        LineRepo.RemovalKeyOfReconstruct(y);
        UniqueKeysSameRow(s.lines, x, y);
      }
    }
  }
}
