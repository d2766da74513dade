/** The Cache class: every public operation opens the file at the cache path
    first, so each one is modelled on what that path holds. A missing file is
    refused by connect(new=False); a file that is not a cache store makes the
    first statement fail. create() and isDbFile() decide on the path alone. */
module Cache {
  import opened Errors
  import opened Lines
  import opened Schema
  import Codec
  import LineRepo
  import PartfuncRepo
  import Query

  /** What the cache path holds: nothing, a file that is not a cache store,
      or a cache store. */
  datatype Disk = Missing | Foreign | Present(store: Store)

  /** connect(new=False) followed by the first statement on the tables. */
  function Open(d: Disk): (r: Result<Store>)
    ensures r.Ok? <==> d.Present?
    ensures d.Missing? ==> r == Err(NoDatabaseFile)
    ensures d.Foreign? ==> r == Err(NoSuchTable)
  {
    match d
    case Missing => Err(NoDatabaseFile)
    case Foreign => Err(NoSuchTable)
    case Present(s) => Ok(s)
  }

  /** isDbFile(path): whether the `info` table can be read. Total: every
      failure reads as false. */
  function IsDbFile(d: Disk): (b: bool)
    ensures b <==> Open(d).Ok?
  {
    d.Present?
  }

  /** create(version, overwrite=...): refuses an existing file unless told to
      overwrite it; otherwise leaves an empty store recording the version. */
  function Create(d: Disk, version: string, overwrite: bool): (r: Result<Disk>)
    ensures r.Err? <==> !d.Missing? && !overwrite
    ensures r.Err? ==> r.error == AlreadyExists
    ensures r.Ok? ==> IsDbFile(r.value)
    ensures r.Ok? ==> |r.value.store.lines| == 0 && |r.value.store.partfuncs| == 0
    ensures r.Ok? ==> r.value.store.info == [version]
    ensures r.Ok? ==> Valid(r.value.store) && NoOrphans(r.value.store)
  {
    if !d.Missing? && !overwrite then Err(AlreadyExists)
    else Ok(Present(EmptyStore(version)))
  }

  /** add_line(line, update). */
  function AddLine(d: Disk, l: Line, update: bool, now: string): (r: Result<Disk>)
    ensures r.Err? <==> !IsDbFile(d)
    ensures r.Err? ==> r.error == Open(d).error
    ensures r.Ok? ==> r.value.Present? && r.value.store.info == d.store.info
    ensures r.Ok? ==> r.value.store.partfuncs == d.store.partfuncs
    ensures r.Ok? && Valid(d.store) ==> Valid(r.value.store)
    ensures d.Present? ==> r == Ok(Present(LineRepo.AddLine(d.store, l, update, now)))
  {
    var s :- Open(d);
    Ok(Present(LineRepo.AddLine(s, l, update, now)))
  }

  /** add_lines(lines, update): the loop over the lines, one commit at the
      end. An empty batch runs no statement, so it fails only on a missing
      file. */
  method AddLines(d: Disk, lines: seq<Line>, update: bool, now: string) returns (r: Result<Disk>)
    ensures d.Missing? ==> r == Err(NoDatabaseFile)
    ensures d.Foreign? ==> r == if lines == [] then Ok(d) else Err(NoSuchTable)
    ensures d.Present? ==> r == Ok(Present(LineRepo.AddEach(d.store, lines, update, now)))
  {
    if d.Missing? {
      return Err(NoDatabaseFile);
    } else if d.Foreign? {
      return if lines == [] then Ok(d) else Err(NoSuchTable);
    }
    var s := AddLinesTo(d.store, lines, update, now);
    return Ok(Present(s));
  }

  /** The loop of add_lines on an open store. */
  method AddLinesTo(s0: Store, lines: seq<Line>, update: bool, now: string) returns (s: Store)
    ensures s == LineRepo.AddEach(s0, lines, update, now)
  {
    s := s0;
    var i := 0;
    while i < |lines|
      invariant 0 <= i <= |lines|
      invariant s == LineRepo.AddEach(s0, lines[..i], update, now)
    {
      LineRepo.AddEachStep(s0, lines, i, update, now);
      s := LineRepo.AddLine(s, lines[i], update, now);
      i := i + 1;
    }
    assert lines[..|lines|] == lines;
  }

  /** add_partfunc(species, temperature, partfunc, origin, dbsource, update). */
  function AddPartfunc(d: Disk, it: PartfuncRepo.PfItem, update: bool): (r: Result<Disk>)
    ensures r.Err? <==> !IsDbFile(d)
    ensures r.Err? ==> r.error == Open(d).error
    ensures r.Ok? ==> r.value.Present? && r.value.store.info == d.store.info
    ensures r.Ok? ==> r.value.store.lines == d.store.lines
    ensures r.Ok? && Valid(d.store) ==> Valid(r.value.store)
    ensures d.Present? ==> r == Ok(Present(PartfuncRepo.AddPartfunc(d.store, it, update)))
  {
    var s :- Open(d);
    Ok(Present(PartfuncRepo.AddPartfunc(s, it, update)))
  }

  /** add_partfuncs(stpod, update): the loop over the tuples, one commit at
      the end. */
  method AddPartfuncs(d: Disk, items: seq<PartfuncRepo.PfItem>, update: bool) returns (r: Result<Disk>)
    ensures d.Missing? ==> r == Err(NoDatabaseFile)
    ensures d.Foreign? ==> r == if items == [] then Ok(d) else Err(NoSuchTable)
    ensures d.Present? ==> r == Ok(Present(PartfuncRepo.AddEach(d.store, items, update)))
  {
    if d.Missing? {
      return Err(NoDatabaseFile);
    } else if d.Foreign? {
      return if items == [] then Ok(d) else Err(NoSuchTable);
    }
    var s := AddPartfuncsTo(d.store, items, update);
    return Ok(Present(s));
  }

  /** The loop of add_partfuncs on an open store. */
  method AddPartfuncsTo(s0: Store, items: seq<PartfuncRepo.PfItem>, update: bool) returns (s: Store)
    ensures s == PartfuncRepo.AddEach(s0, items, update)
  {
    s := s0;
    var i := 0;
    while i < |items|
      invariant 0 <= i <= |items|
      invariant s == PartfuncRepo.AddEach(s0, items[..i], update)
    {
      PartfuncRepo.AddEachStep(s0, items, i, update);
      s := PartfuncRepo.AddPartfunc(s, items[i], update);
      i := i + 1;
    }
    assert items[..|items|] == items;
  }

  /** remove(lines): one delete per line, each followed by the trigger, one
      commit at the end. */
  method Remove(d: Disk, lines: seq<Line>) returns (r: Result<Disk>)
    ensures d.Missing? ==> r == Err(NoDatabaseFile)
    ensures d.Foreign? ==> r == if lines == [] then Ok(d) else Err(NoSuchTable)
    ensures d.Present? ==> r == Ok(Present(LineRepo.RemoveEach(d.store, lines)))
  {
    if d.Missing? {
      return Err(NoDatabaseFile);
    } else if d.Foreign? {
      return if lines == [] then Ok(d) else Err(NoSuchTable);
    }
    var s := RemoveFrom(d.store, lines);
    return Ok(Present(s));
  }

  /** The loop of remove on an open store. */
  method RemoveFrom(s0: Store, lines: seq<Line>) returns (s: Store)
    ensures s == LineRepo.RemoveEach(s0, lines)
  {
    s := s0;
    var i := 0;
    while i < |lines|
      invariant 0 <= i <= |lines|
      invariant s == LineRepo.RemoveEach(s0, lines[..i])
    {
      LineRepo.RemoveEachStep(s0, lines, i);
      s := LineRepo.RemoveOne(s, lines[i]);
      i := i + 1;
    }
    assert lines[..|lines|] == lines;
  }

  /** search(...): the species argument is checked before the file is
      opened. */
  function Search(d: Disk, f: Query.Filter): (r: Result<seq<Line>>)
    ensures f.species.Unsupported? ==> r == Err(UnexpectedArgument)
    ensures !f.species.Unsupported? && !IsDbFile(d) ==> r == Err(Open(d).error)
    ensures r.Ok? ==> IsDbFile(d) && |r.value| <= |d.store.lines|
    ensures r.Ok? ==> forall x :: x in d.store.lines ==>
              (Reconstruct(x) in r.value <==> Query.Selected(f, Query.SpeciesNames(f.species).value, x))
    ensures !f.species.Unsupported? && d.Present? ==> r == Query.Search(d.store, f)
  {
    var _ :- Query.SpeciesNames(f.species);
    var s :- Open(d);
    Query.Search(s, f)
  }

  /** partition_function(species, origin, dbsource). */
  function PartitionFunction(d: Disk, species: string, origin: string, dbsource: string)
    : (r: Result<(seq<Codec.Word>, seq<Codec.Word>)>)
    ensures !IsDbFile(d) ==> r == Err(Open(d).error)
    ensures IsDbFile(d) && Valid(d.store) && r.Err? ==> r.error == NotFound
    ensures r.Ok? ==> PfKey(species, origin, dbsource) in d.store.partfuncs
    ensures r.Ok? ==> |r.value.1| > 0 && r.value.1[0] != BlankPartfunc
    ensures d.Present? ==> r == PartfuncRepo.PartitionFunction(d.store, species, origin, dbsource)
  {
    var s :- Open(d);
    PartfuncRepo.PartitionFunction(s, species, origin, dbsource)
  }

  /** The CO 1-0 line as the CDMS catalog delivers it. */
  const CoLine: Line :=
    NewLine().(species := "CO", frequency := 115271.2, origin := "cdms", dbsource := "cdms",
               upperLevel := NewLevel().(quantumNumbers := "1-0"),
               lowerLevel := NewLevel().(quantumNumbers := "0-0"))

  /** A search for CO between 115000 and 115500 MHz. */
  const CoQuery: Query.Filter :=
    Query.Defaults.(fmin := 115000.0, fmax := 115500.0, species := Query.Text("CO"))

  /** Adding the line to an empty store appends its row, stamped with the
      current date since CDMS is a live catalog. */
  lemma CoLineAdded(now: string)
    ensures LineRepo.AddLine(EmptyStore("1.00"), CoLine, false, now).lines == [ToRow(CoLine, now)]
  {
    assert LineRepo.StampedOnInsert(CoLine) by {
      assert CoLine.dbsource == Origins[3];
    }
  }

  /** The query selects the row. */
  lemma CoQuerySelects(now: string)
    ensures Query.Selected(CoQuery, Query.SpeciesNames(CoQuery.species).value, ToRow(CoLine, now))
  {
    var names := Query.SpeciesNames(CoQuery.species).value;
    assert names == ["CO"];
    assert Query.Wildcard("CO") == "CO";
    assert Query.NameSelects(names[0], "CO");
  }

  /** Searching the store holding just that row finds it, rebuilt. */
  lemma CoLineFound(now: string)
    ensures Query.Search(LineRepo.AddLine(EmptyStore("1.00"), CoLine, false, now), CoQuery)
            == Ok([CoLine.(dbsource := "", prev := "cdms", date := now)])
  {
    CoLineAdded(now);
    CoQuerySelects(now);
    Query.SearchSingleRow(LineRepo.AddLine(EmptyStore("1.00"), CoLine, false, now), CoQuery);
    RowRoundTrip(CoLine, now);
  }

  /** Removing what a search found leaves nothing for the same search. */
  lemma SearchAfterRemoveEmpty(s: Store, f: Query.Filter)
    requires Valid(s) && !f.species.Unsupported?
    ensures Query.Search(LineRepo.RemoveEach(s, Query.Search(s, f).value), f) == Ok([])
  {
    Query.RemoveSearched(s, f);
    Query.SearchNothingSelected(LineRepo.RemoveEach(s, Query.Search(s, f).value), f);
  }

  /** Creating a store and adding the line through the cache gives the
      store-level result. */
  lemma CoLineStored(now: string)
    ensures AddLine(Create(Missing, "1.00", false).value, CoLine, false, now)
            == Ok(Present(LineRepo.AddLine(EmptyStore("1.00"), CoLine, false, now)))
  {
    assert Create(Missing, "1.00", false) == Ok(Present(EmptyStore("1.00")));
  }

  /** The walk-through: create a store, add the CO 1-0 line from CDMS, find
      it by frequency range and species, remove it, and find nothing. */
  lemma CreateAddSearchRemove(now: string)
    ensures
      var d1 := AddLine(Create(Missing, "1.00", false).value, CoLine, false, now).value;
      var found := Search(d1, CoQuery).value;
      && found == [CoLine.(dbsource := "", prev := "cdms", date := now)]
      && Search(Present(LineRepo.RemoveEach(d1.store, found)), CoQuery) == Ok([])
  {
    var s1 := LineRepo.AddLine(EmptyStore("1.00"), CoLine, false, now);
    CoLineStored(now);
    CoLineFound(now);
    var found := Query.Search(s1, CoQuery).value;
    assert Search(Present(s1), CoQuery).value == found;
    assert Valid(s1);
    SearchAfterRemoveEmpty(s1, CoQuery);
    assert Search(Present(LineRepo.RemoveEach(s1, found)), CoQuery) == Query.Search(LineRepo.RemoveEach(s1, found), CoQuery);
  }
}
