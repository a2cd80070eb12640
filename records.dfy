/**
 * The persisted form of the ledger: `save_blockchain` turns each block into
 * a six-field record and `load_blockchain` rebuilds blocks from records,
 * restoring both stored digests verbatim. The JSON text, the Fernet
 * encryption and the file itself are not modelled: the saved file is the
 * list of records, and a missing file is `None`.
 */
module Records {
  import opened Wrappers
  import opened DateTimes
  import opened Blocks
  import opened Chains

  datatype Record = Record(
    index: int,
    timestamp: string,
    data: string,
    dataHash: string,
    previousHash: string,
    hash: string)

  /** Loading stops with the ValueError of the timestamp parse, at the record it failed on. */
  datatype LoadError = BadTimestamp(position: nat)

  /** The record `save_blockchain` writes for one block; the timestamp as `str(t)`. */
  function ToRecord(b: Block): Record {
    Record(b.index, Render(b.timestamp), b.data, b.dataHash, b.previousHash, b.hash)
  }

  /** One record per block, in chain order. */
  function RecordsOf(chain: seq<Block>): (records: seq<Record>)
    ensures |records| == |chain|
    ensures forall i :: 0 <= i < |chain| ==> records[i] == ToRecord(chain[i])
  {
    if chain == [] then [] else RecordsOf(chain[..|chain| - 1]) + [ToRecord(chain[|chain| - 1])]
  }

  /**
   * The block a record yields once its timestamp has parsed as `t`. The
   * program constructs the block from index, timestamp, data and previous
   * hash and then overwrites both digests the constructor computed with the
   * stored ones, so every field comes from the record (`LoadBlockchain`
   * performs those steps and is proved to reach this block).
   */
  function Rebuild(r: Record, t: Timestamp): Block {
    Block(r.index, t, r.data, r.previousHash, r.dataHash, r.hash)
  }

  /**
   * One loop step of `load_blockchain` as the program writes it: the
   * timestamp goes through `strptime` with the format that requires a
   * fraction. `None` stands for the uncaught ValueError.
   */
  function FromRecordStrict(r: Record): (result: Option<Block>)
    ensures result.Some? <==> ParseStrict(r.timestamp).Some?
    ensures result.Some? ==> result.value == Rebuild(r, ParseStrict(r.timestamp).value)
  {
    match ParseStrict(r.timestamp)
    case None => None
    case Some(t) => Some(Rebuild(r, t))
  }

  /**
   * One loop step of `load_blockchain` with the corrected parse, which also
   * reads a timestamp written without a fraction. The model's loader uses
   * this step.
   */
  function FromRecord(r: Record): (result: Option<Block>)
    ensures result.Some? <==> Parse(r.timestamp).Some?
    ensures result.Some? ==> result.value.index == r.index && result.value.data == r.data
                             && result.value.timestamp == Parse(r.timestamp).value
                             && result.value.previousHash == r.previousHash
                             && result.value.dataHash == r.dataHash && result.value.hash == r.hash
    ensures FromRecordStrict(r).Some? ==> result == FromRecordStrict(r)
  {
    match Parse(r.timestamp)
    case None => None
    case Some(t) => Some(Rebuild(r, t))
  }

  /** As written, the saved record of any block stamped on a whole second cannot be loaded. */
  lemma StrictLoadRejectsWholeSecond(b: Block)
    requires b.timestamp.microsecond == 0
    ensures FromRecordStrict(ToRecord(b)) == None
  {
    StrictParseRejectsWholeSecond(b.timestamp);
  }

  /** The blocks `load_blockchain` builds from a list of records, or where it stops. */
  function Restore(records: seq<Record>): (result: Result<seq<Block>, LoadError>)
    ensures result.Ok? ==> |result.value| == |records|
    ensures result.Err? ==> result.error.position < |records|
  {
    if records == [] then Ok([])
    else
      var n := |records| - 1;
      match Restore(records[..n])
      case Err(e) => Err(e)
      case Ok(blocks) =>
        match FromRecord(records[n])
        case None => Err(BadTimestamp(n))
        case Some(b) => Ok(blocks + [b])
  }

  /** On success, block `i` is the block record `i` loads as. */
  lemma {:induction false} RestoreLoadsEachRecord(records: seq<Record>)
    requires Restore(records).Ok?
    ensures forall i :: 0 <= i < |records| ==> FromRecord(records[i]) == Some(Restore(records).value[i])
  {
    if records != [] {
      var n := |records| - 1;
      var init := records[..n];
      var prefix := Restore(init);
      var step := FromRecord(records[n]);
      assert prefix.Ok? && step.Some?;
      var loaded := prefix.value + [step.value];
      assert Restore(records) == Ok(loaded);
      RestoreLoadsEachRecord(init);
      forall i | 0 <= i < |records|
        ensures FromRecord(records[i]) == Some(loaded[i])
      {
        if i < n {
          assert FromRecord(init[i]) == Some(prefix.value[i]);
          assert records[i] == init[i] && loaded[i] == prefix.value[i];
        } else {
          assert i == n && loaded[i] == step.value;
        }
      }
    }
  }

  /** On failure, the error names the first record whose timestamp does not parse. */
  lemma {:induction false} RestoreStopsAtFirstFailure(records: seq<Record>)
    requires Restore(records).Err?
    ensures Parse(records[Restore(records).error.position].timestamp).None?
    ensures forall j :: 0 <= j < Restore(records).error.position ==> Parse(records[j].timestamp).Some?
  {
    var n := |records| - 1;
    var init := records[..n];
    var position := Restore(records).error.position;
    if Restore(init).Err? {
      assert Restore(records) == Restore(init);
      RestoreStopsAtFirstFailure(init);
      assert records[position] == init[position];
      forall j | 0 <= j < position
        ensures Parse(records[j].timestamp).Some?
      {
        assert records[j] == init[j];
      }
    } else {
      assert position == n;
      RestoreLoadsEachRecord(init);
      forall j | 0 <= j < n
        ensures Parse(records[j].timestamp).Some?
      {
        assert records[j] == init[j];
        assert FromRecord(init[j]).Some?;
      }
    }
  }

  /** A list of records loads exactly when every timestamp in it parses. */
  lemma RestoreSucceedsExactly(records: seq<Record>)
    ensures Restore(records).Ok? <==> forall i :: 0 <= i < |records| ==> Parse(records[i].timestamp).Some?
  {
    var result := Restore(records);
    if result.Ok? {
      RestoreLoadsEachRecord(records);
      forall i | 0 <= i < |records| ensures Parse(records[i].timestamp).Some? {
        assert FromRecord(records[i]).Some?;
      }
    } else {
      RestoreStopsAtFirstFailure(records);
    }
  }

  /** Once a prefix of the records fails to load, the whole list fails the same way. */
  lemma {:induction false} RestoreFailurePersists(records: seq<Record>, n: nat)
    requires n <= |records| && Restore(records[..n]).Err?
    ensures Restore(records) == Restore(records[..n])
  {
    if n == |records| {
      assert records[..n] == records;
    } else {
      var init := records[..|records| - 1];
      assert init[..n] == records[..n];
      RestoreFailurePersists(init, n);
    }
  }

  /** `save_blockchain`, less the JSON text and the encryption: the record list it builds. */
  method SaveBlockchain(chain: seq<Block>) returns (records: seq<Record>)
    ensures records == RecordsOf(chain)
  {
    records := [];
    for i := 0 to |chain|
      invariant records == RecordsOf(chain[..i])
    {
      assert chain[..i + 1] == chain[..i] + [chain[i]];
      records := records + [ToRecord(chain[i])];
    }
    assert chain[..|chain|] == chain;
  }

  /**
   * `load_blockchain`, less the file and the decryption: a missing file
   * gives the empty list; otherwise each record becomes a block in turn and
   * a timestamp the parse rejects stops the load.
   */
  method LoadBlockchain(file: Option<seq<Record>>, digest: Hasher) returns (result: Result<seq<Block>, LoadError>)
    ensures file.None? ==> result == Ok([])
    ensures file.Some? ==> result == Restore(file.value)
  {
    if file.None? {
      return Ok([]);
    }
    var records := file.value;
    var blockchain := [];
    for i := 0 to |records|
      invariant Restore(records[..i]) == Ok(blockchain)
    {
      assert records[..i + 1][..i] == records[..i];
      var r := records[i];
      var parsed := Parse(r.timestamp);
      if parsed.None? {
        RestoreFailurePersists(records, i + 1);
        return Err(BadTimestamp(i));
      }
      var block := NewBlock(r.index, parsed.value, r.data, r.previousHash, digest);
      block := block.(dataHash := r.dataHash);
      block := block.(hash := r.hash);
      assert block == Rebuild(r, parsed.value);
      blockchain := blockchain + [block];
    }
    assert records[..|records|] == records;
    return Ok(blockchain);
  }

  /** A block survives the trip through its record unchanged. */
  lemma FromToRecord(b: Block)
    ensures FromRecord(ToRecord(b)) == Some(b)
  {
    ParseInvertsRender(b.timestamp);
  }

  /** Saving a chain and loading the records back gives the same chain, field for field. */
  lemma {:induction false} RestoreRecordsOf(chain: seq<Block>)
    ensures Restore(RecordsOf(chain)) == Ok(chain)
  {
    if chain != [] {
      var n := |chain| - 1;
      var records := RecordsOf(chain);
      assert records[..n] == RecordsOf(chain[..n]);
      assert records[n] == ToRecord(chain[n]);
      RestoreRecordsOf(chain[..n]);
      FromToRecord(chain[n]);
      RestoreAppend(records, chain[..n], chain[n]);
      SplitLast(chain);
    }
  }

  lemma SplitLast<T>(s: seq<T>)
    requires s != []
    ensures s[..|s| - 1] + [s[|s| - 1]] == s
  {
  }

  /** One step of `Restore`: a loadable last record extends the blocks of the others. */
  lemma RestoreAppend(records: seq<Record>, blocks: seq<Block>, b: Block)
    requires records != [] && Restore(records[..|records| - 1]) == Ok(blocks)
    requires FromRecord(records[|records| - 1]) == Some(b)
    ensures Restore(records) == Ok(blocks + [b])
  {
  }

  /** The verdicts of both checks after a reload are those before the save. */
  lemma VerdictSurvivesReload(chain: seq<Block>, digest: Hasher)
    ensures Restore(RecordsOf(chain)).Ok?
    ensures IntegrityOk(Restore(RecordsOf(chain)).value, digest) == IntegrityOk(chain, digest)
    ensures HashesOk(Restore(RecordsOf(chain)).value, digest) == HashesOk(chain, digest)
  {
    RestoreRecordsOf(chain);
  }

  /**
   * Because the digests are restored verbatim, a payload edited in the saved
   * records of any block after the first is caught by `check_integrity`
   * after loading.
   */
  lemma EditedRecordDetected(chain: seq<Block>, i: int, data: string, digest: Hasher)
    requires Injective(digest)
    requires IntegrityOk(chain, digest) && 1 <= i < |chain| && data != chain[i].data
    ensures var records := RecordsOf(chain);
            var loaded := Restore(records[i := records[i].(data := data)]);
            loaded.Ok? && !IntegrityOk(loaded.value, digest)
  {
    var tampered := chain[i := chain[i].(data := data)];
    assert RecordsOf(chain)[i := RecordsOf(chain)[i].(data := data)] == RecordsOf(tampered);
    RestoreRecordsOf(tampered);
    TamperedDataDetected(chain, i, data, digest);
  }
}
