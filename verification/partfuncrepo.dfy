/** Writing and reading `partfunc` rows: add_partfunc, add_partfuncs and
    partition_function. The numeric sequences are stored through the binary
    codec. */
module PartfuncRepo {
  import opened Errors
  import opened Codec
  import opened Schema

  /** One (species, temperatures, partfuncs, origin, dbsource) tuple. */
  datatype PfItem = PfItem(
    species: string,
    temperature: seq<Word>,
    partfunc: seq<Word>,
    origin: string,
    dbsource: string)

  function KeyOfItem(it: PfItem): PfKey {
    PfKey(it.species, it.origin, it.dbsource)
  }

  /** The blobs an insert binds for a tuple. */
  function Blobs(it: PfItem): PfRow {
    PfRow(Encode(it.temperature), Encode(it.partfunc))
  }

  /** add_partfunc(..., update) on an open store: `insert or replace` when
      updating, otherwise `insert` with the IntegrityError swallowed. */
  function AddPartfunc(s: Store, it: PfItem, update: bool): (r: Store)
    ensures r.lines == s.lines && r.info == s.info
    ensures KeyOfItem(it) in r.partfuncs
    ensures forall t :: t != KeyOfItem(it) ==>
              (t in r.partfuncs <==> t in s.partfuncs) &&
              (t in r.partfuncs ==> r.partfuncs[t] == s.partfuncs[t])
    ensures !update && KeyOfItem(it) in s.partfuncs ==> r == s
    ensures update || KeyOfItem(it) !in s.partfuncs ==> r.partfuncs[KeyOfItem(it)] == Blobs(it)
    ensures Valid(s) ==> Valid(r)
  {
    var k := KeyOfItem(it);
    if !update && k in s.partfuncs then s
    else s.(partfuncs := s.partfuncs[k := Blobs(it)])
  }

  /** The reference for add_partfuncs: add_partfunc applied to each tuple in
      turn, with colliding tuples skipped. */
  function AddEach(s: Store, items: seq<PfItem>, update: bool): (r: Store)
    ensures r.lines == s.lines && r.info == s.info
    ensures r.partfuncs.Keys == s.partfuncs.Keys + ItemKeys(items)
    ensures forall t :: t in s.partfuncs && t !in ItemKeys(items) ==> r.partfuncs[t] == s.partfuncs[t]
    ensures Valid(s) ==> Valid(r)
    decreases |items|
  {
    if items == [] then s
    else
      var init := items[..|items| - 1];
      assert items == init + [items[|items| - 1]];
      assert ItemKeys(items) == ItemKeys(init) + {KeyOfItem(items[|items| - 1])};
      AddPartfunc(AddEach(s, init, update), items[|items| - 1], update)
  }

  /** The batch up to tuple i + 1 is the batch up to tuple i followed by
      one more add_partfunc. */
  lemma AddEachStep(s: Store, items: seq<PfItem>, i: nat, update: bool)
    requires i < |items|
    ensures AddEach(s, items[..i + 1], update) == AddPartfunc(AddEach(s, items[..i], update), items[i], update)
  {
    assert items[..i + 1][..i] == items[..i];
  }

  /** The keys of a batch of tuples. */
  function ItemKeys(items: seq<PfItem>): set<PfKey> {
    set it | it in items :: KeyOfItem(it)
  }

  /** partition_function(species, origin, dbsource): the decoded pair of the
      matching row; NotFound when there is no row, when the stored partition
      function is empty, or when it starts with the blank sentinel. */
  function PartitionFunction(s: Store, species: string, origin: string, dbsource: string)
    : (r: Result<(seq<Word>, seq<Word>)>)
    ensures PfKey(species, origin, dbsource) !in s.partfuncs ==> r == Err(NotFound)
    ensures r.Ok? ==>
              var row := s.partfuncs[PfKey(species, origin, dbsource)];
              && Encode(r.value.0) == row.temperature
              && Encode(r.value.1) == row.partfunc
              && |r.value.1| > 0 && r.value.1[0] != BlankPartfunc
    ensures BlobsWellFormed(s.partfuncs) && r.Err? ==> r.error == NotFound
  {
    var k := PfKey(species, origin, dbsource);
    if k !in s.partfuncs then Err(NotFound)
    else
      var temperature :- Decode(s.partfuncs[k].temperature);
      var partfunc :- Decode(s.partfuncs[k].partfunc);
      if |partfunc| == 0 || partfunc[0] == BlankPartfunc then Err(NotFound)
      else Ok((temperature, partfunc))
  }

  /** Reading back a partition function just written gives the written pair,
      unless it is empty or blank, which reads as NotFound. */
  lemma PartitionFunctionAfterAdd(s: Store, it: PfItem, update: bool)
    requires update || KeyOfItem(it) !in s.partfuncs
    ensures PartitionFunction(AddPartfunc(s, it, update), it.species, it.origin, it.dbsource) ==
              if |it.partfunc| == 0 || it.partfunc[0] == BlankPartfunc then Err(NotFound)
              else Ok((it.temperature, it.partfunc))
  {
    DecodeEncode(it.temperature);
    DecodeEncode(it.partfunc);
  }

  /** A blank (or empty) partition function and a missing one look the same
      to the caller. */
  lemma BlankLooksMissing(s: Store, it: PfItem, update: bool)
    requires update || KeyOfItem(it) !in s.partfuncs
    requires |it.partfunc| == 0 || it.partfunc[0] == BlankPartfunc
    ensures PartitionFunction(AddPartfunc(s, it, update), it.species, it.origin, it.dbsource) ==
            PartitionFunction(s.(partfuncs := s.partfuncs - {KeyOfItem(it)}), it.species, it.origin, it.dbsource)
  {
    PartitionFunctionAfterAdd(s, it, update);
  }
}
