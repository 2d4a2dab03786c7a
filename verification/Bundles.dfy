/**
 * Governance bundles on disk: building one, claiming its slot, gathering several into one, and
 * executing them. The directory is a map per sub-directory; file names are base names.
 */
module Bundles {
  import opened Wrappers
  import Chain
  import Sequences

  /** `padded` says that the two keys the Safe user interface expects are present (as null). */
  datatype Tx = Tx(to: string, value: string, data: Chain.Call, padded: bool)

  datatype TxMetadata = Blank | Described(toLabel: string, contractName: string, signature: string, notes: string)

  /** A transaction with its metadata: what gathering carries over. */
  datatype Item = Item(tx: Tx, metadata: TxMetadata)

  datatype Bundle = Bundle(transactions: seq<Tx>, metadata: Option<seq<TxMetadata>>, gatheredFrom: Option<seq<string>>)

  type Files = map<string, Bundle>

  datatype Dir = Dir(top: Files, incorporated: map<string, Files>, executed: Files)

  function FileName(name: string): string { name + ".json" }

  function SourceName(prefix: string, name: string): string { FileName(prefix + "-" + name) }

  lemma SourceNameInjective(prefix: string, a: string, b: string)
    requires SourceName(prefix, a) == SourceName(prefix, b)
    ensures a == b
  {
    var n := |prefix| + 1;
    assert SourceName(prefix, a)[n..n + |a|] == a;
    assert SourceName(prefix, b)[n..n + |b|] == b;
    assert |a| == |b|;
  }

  function Padded(tx: Tx): Tx { tx.(padded := true) }

  function MetadataAt(b: Bundle, i: nat): TxMetadata {
    if b.metadata.Some? && i < |b.metadata.value| then b.metadata.value[i] else Blank
  }

  /** What gathering a bundle appends: each transaction, padded, with its own metadata or none. */
  function Items(b: Bundle): (items: seq<Item>)
    ensures |items| == |b.transactions|
  {
    seq(|b.transactions|, i requires 0 <= i < |b.transactions| => Item(Padded(b.transactions[i]), MetadataAt(b, i)))
  }

  function Txs(items: seq<Item>): (txs: seq<Tx>)
    ensures |txs| == |items|
  {
    seq(|items|, i requires 0 <= i < |items| => items[i].tx)
  }

  function Metadatas(items: seq<Item>): (m: seq<TxMetadata>)
    ensures |m| == |items|
  {
    seq(|items|, i requires 0 <= i < |items| => items[i].metadata)
  }

  function Zip(txs: seq<Tx>, metadata: seq<TxMetadata>): (items: seq<Item>)
    requires |metadata| == |txs|
    ensures |items| == |txs|
  {
    seq(|txs|, i requires 0 <= i < |txs| => Item(txs[i], metadata[i]))
  }

  /** The file a builder holding these items writes. */
  function Saved(items: seq<Item>, gatheredFrom: Option<seq<string>>): Bundle {
    Bundle(Txs(items), if |items| > 0 then Some(Metadatas(items)) else None, gatheredFrom)
  }

  predicate AllPadded(items: seq<Item>) {
    forall i :: 0 <= i < |items| ==> items[i].tx.padded
  }

  /** Saving and gathering again reproduces the same transactions with the same metadata, in order. */
  lemma SaveGatherRoundTrip(items: seq<Item>, gatheredFrom: Option<seq<string>>)
    requires AllPadded(items)
    ensures Items(Saved(items, gatheredFrom)) == items
  {
    var b := Saved(items, gatheredFrom);
    forall i | 0 <= i < |items| ensures Items(b)[i] == items[i] {
      assert Padded(items[i].tx) == items[i].tx;
    }
  }

  // ---------------------------------------------------------------- claiming and gathering

  /** Claiming a slot removes the pending file of that name and the sources once gathered into it. */
  function Claimed(d: Dir, name: string): Dir {
    d.(top := d.top - {FileName(name)}, incorporated := d.incorporated - {name})
  }

  function Contribution(top: Files, prefix: string, name: string): seq<Item> {
    if SourceName(prefix, name) in top then Items(top[SourceName(prefix, name)]) else []
  }

  /** The items of the bundles present, in entry order. */
  function Gathered(top: Files, prefix: string, names: seq<string>): seq<Item> {
    if names == [] then []
    else Gathered(top, prefix, names[..|names| - 1]) + Contribution(top, prefix, names[|names| - 1])
  }

  /** The files that contributed at least one transaction, in entry order. */
  function Sources(top: Files, prefix: string, names: seq<string>): seq<string> {
    if names == [] then []
    else
      var last := names[|names| - 1];
      Sources(top, prefix, names[..|names| - 1])
      + if |Contribution(top, prefix, last)| > 0 then [SourceName(prefix, last)] else []
  }

  /** Moving a list of files; a file that is gone (for instance because it is listed twice) stops the move. */
  function Moved(d: Dir, files: seq<string>, batch: string): Option<Dir> {
    if files == [] then Some(d)
    else
      match Moved(d, files[..|files| - 1], batch)
      case None => None
      case Some(d1) =>
        var f := files[|files| - 1];
        if f !in d1.top then None
        else
          var kept := if batch in d1.incorporated then d1.incorporated[batch] else map[];
          Some(d1.(top := d1.top - {f}, incorporated := d1.incorporated[batch := kept[f := d1.top[f]]]))
  }

  class TxBuilder {
    const outputFile: string
    var transactions: seq<Tx>
    var metadata: seq<TxMetadata>
    var gatheredFrom: Option<seq<string>>

    ghost predicate Valid()
      reads this
    {
      |metadata| == |transactions| && AllPadded(Contents())
    }

    ghost function Contents(): seq<Item>
      reads this
      requires |metadata| == |transactions|
    {
      Zip(transactions, metadata)
    }

    constructor (name: string)
      ensures Valid() && Contents() == [] && outputFile == FileName(name) && gatheredFrom == None
    {
      outputFile := FileName(name);
      transactions, metadata, gatheredFrom := [], [], None;
    }

    method AddTx(tx: Tx, m: TxMetadata)
      requires Valid()
      modifies this`transactions, this`metadata
      ensures Valid() && Contents() == old(Contents()) + [Item(Padded(tx), m)]
    {
      ghost var before := Contents();
      transactions := transactions + [Padded(tx)];
      metadata := metadata + [m];
      assert Contents() == before + [Item(Padded(tx), m)];
    }

    method MarkGatheredFrom(sources: seq<string>)
      modifies this`gatheredFrom
      ensures gatheredFrom == Some(sources)
    {
      gatheredFrom := Some(sources);
    }

    /** The bundle `saveToFile` writes. */
    method Save() returns (b: Bundle)
      requires Valid()
      ensures b == Saved(Contents(), gatheredFrom)
      ensures Items(b) == Contents()
    {
      b := Bundle(transactions, if |metadata| > 0 then Some(metadata) else None, gatheredFrom);
      assert Txs(Contents()) == transactions && Metadatas(Contents()) == metadata;
      SaveGatherRoundTrip(Contents(), gatheredFrom);
    }
  }

  class TxDirectory {
    var dir: Dir

    constructor (initial: Dir)
      ensures dir == initial
    {
      dir := initial;
    }

    method ClaimBundleSlot(name: string)
      modifies this
      ensures dir == Claimed(old(dir), name)
    {
      if FileName(name) in dir.top {
        dir := dir.(top := dir.top - {FileName(name)});
      }
      if name in dir.incorporated {
        dir := dir.(incorporated := dir.incorporated - {name});
      }
    }

    method CreateGovernanceTxBuilder(name: string) returns (builder: TxBuilder)
      modifies this
      ensures dir == Claimed(old(dir), name)
      ensures fresh(builder) && builder.Valid() && builder.Contents() == []
      ensures builder.outputFile == FileName(name) && builder.gatheredFrom == None
    {
      ClaimBundleSlot(name);
      builder := new TxBuilder(name);
    }

    method SaveGovernanceTx(builder: TxBuilder)
      requires builder.Valid()
      modifies this
      ensures dir
           == old(dir).(top := old(dir).top[builder.outputFile := Saved(builder.Contents(), builder.gatheredFrom)])
    {
      var b := builder.Save();
      dir := dir.(top := dir.top[builder.outputFile := b]);
    }

    /** One bundle of those gathered: its transactions, each with its own metadata or none. */
    method AppendBundle(builder: TxBuilder, parsed: Bundle)
      requires builder.Valid()
      modifies builder`transactions, builder`metadata
      ensures builder.Valid() && builder.Contents() == old(builder.Contents()) + Items(parsed)
    {
      ghost var start := builder.Contents();
      for i := 0 to |parsed.transactions|
        invariant builder.Valid()
        invariant builder.Contents() == start + Items(parsed)[..i]
      {
        builder.AddTx(parsed.transactions[i], MetadataAt(parsed, i));
      }
      assert Items(parsed)[..|parsed.transactions|] == Items(parsed);
    }

    method GatherBundles(builder: TxBuilder, names: seq<string>, prefix: string)
      returns (txCount: nat, sources: seq<string>)
      requires builder.Valid()
      modifies builder`transactions, builder`metadata
      ensures builder.Valid() && builder.Contents() == old(builder.Contents()) + Gathered(dir.top, prefix, names)
      ensures txCount == |Gathered(dir.top, prefix, names)|
      ensures sources == Sources(dir.top, prefix, names)
    {
      txCount, sources := 0, [];
      ghost var before := builder.Contents();
      for k := 0 to |names|
        invariant builder.Valid()
        invariant builder.Contents() == before + Gathered(dir.top, prefix, names[..k])
        invariant txCount == |Gathered(dir.top, prefix, names[..k])|
        invariant sources == Sources(dir.top, prefix, names[..k])
      {
        assert names[..k + 1][..k] == names[..k];
        var filename := SourceName(prefix, names[k]);
        if filename in dir.top {
          var parsed := dir.top[filename];
          AppendBundle(builder, parsed);
          txCount := txCount + |parsed.transactions|;
          Sequences.Associates(before, Gathered(dir.top, prefix, names[..k]), Items(parsed));
          if |parsed.transactions| > 0 {
            sources := sources + [filename];
          }
        }
      }
      assert names[..|names|] == names;
    }

    /** Relocates the gathered sources; an error when one of them is no longer there. */
    method MarkIncorporated(files: seq<string>, batch: string) returns (ok: bool)
      modifies this
      ensures ok == Moved(old(dir), files, batch).Some?
      ensures ok ==> dir == Moved(old(dir), files, batch).value
    {
      for k := 0 to |files|
        invariant Moved(old(dir), files[..k], batch) == Some(dir)
      {
        assert files[..k + 1][..k] == files[..k];
        var f := files[k];
        if f !in dir.top {
          MovedStops(old(dir), files, batch, k + 1);
          return false;
        }
        var moved := if batch in dir.incorporated then dir.incorporated[batch] else map[];
        dir := dir.(top := dir.top - {f}, incorporated := dir.incorporated[batch := moved[f := dir.top[f]]]);
      }
      assert files[..|files|] == files;
      ok := true;
    }

    /** The orchestrator: claim the batch, gather, save the consolidated bundle, relocate its sources. */
    method Consolidate(batch: string, names: seq<string>, prefix: string, extra: seq<Item>) returns (ok: bool)
      modifies this
      ensures ok == Consolidated(old(dir), batch, names, prefix, extra).Some?
      ensures ok ==> dir == Consolidated(old(dir), batch, names, prefix, extra).value
    {
      var builder := CreateGovernanceTxBuilder(batch);
      var count, sources := GatherBundles(builder, names, prefix);
      for i := 0 to |extra|
        invariant builder.Valid() && builder.gatheredFrom == None && builder.outputFile == FileName(batch)
        invariant builder.Contents() == Gathered(dir.top, prefix, names) + PaddedItems(extra)[..i]
        invariant dir == Claimed(old(dir), batch)
      {
        builder.AddTx(extra[i].tx, extra[i].metadata);
      }
      assert PaddedItems(extra)[..|extra|] == PaddedItems(extra);
      if count + |extra| == 0 {
        return true;
      }
      builder.MarkGatheredFrom(sources);
      SaveGovernanceTx(builder);
      ok := MarkIncorporated(sources, batch);
    }
  }

  function PaddedItems(items: seq<Item>): (r: seq<Item>)
    ensures |r| == |items| && AllPadded(r)
  {
    seq(|items|, i requires 0 <= i < |items| => Item(Padded(items[i].tx), items[i].metadata))
  }

  function Consolidated(d: Dir, batch: string, names: seq<string>, prefix: string, extra: seq<Item>): Option<Dir> {
    var d1 := Claimed(d, batch);
    var items := Gathered(d1.top, prefix, names) + PaddedItems(extra);
    if items == [] then Some(d1)
    else
      var sources := Sources(d1.top, prefix, names);
      Moved(d1.(top := d1.top[FileName(batch) := Saved(items, Some(sources))]), sources, batch)
  }

  lemma {:induction false} MovedStops(d: Dir, files: seq<string>, batch: string, k: nat)
    requires k <= |files| && Moved(d, files[..k], batch).None?
    ensures Moved(d, files, batch).None?
    decreases |files| - k
  {
    if k == |files| {
      assert files[..k] == files;
    } else {
      assert files[..k + 1][..k] == files[..k];
      MovedStops(d, files, batch, k + 1);
    }
  }
}
