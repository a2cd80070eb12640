/**
 * The program's global state and the operations that change it: the list
 * `blockchain`, the `previous_block` it appends after, and the saved file.
 * The GUI around these operations (entry field, message boxes, listing) is
 * not modelled: each operation returns the verdict the GUI would show.
 */
module LedgerService {
  import opened Wrappers
  import opened DateTimes
  import opened Blocks
  import opened Chains
  import opened Records

  class Ledger {
    /** The global list `blockchain`. */
    var chain: seq<Block>
    /** The global `previous_block`, the block the next append links to. */
    var previous: Block
    /** The saved file's records; `None` while no file exists. */
    var file: Option<seq<Record>>
    /** The digest every hash is computed with. */
    const digest: Hasher

    /** The list is never empty and `previous_block` is always its last block. */
    ghost predicate Valid()
      reads this
    {
      |chain| > 0 && previous == chain[|chain| - 1]
    }

    /**
     * Module start-up after `load_blockchain` returned `loaded`: an empty
     * list, from a missing or an empty file, is replaced by a single fresh
     * genesis block; `previous_block` is the last block.
     */
    constructor (loaded: seq<Block>, file: Option<seq<Record>>, now: Timestamp, digest: Hasher)
      ensures Valid()
      ensures chain == (if loaded == [] then [CreateGenesis(now, digest)] else loaded)
      ensures this.file == file && this.digest == digest
    {
      var blockchain := loaded;
      if blockchain == [] {
        blockchain := [CreateGenesis(now, digest)];
      }
      chain := blockchain;
      previous := blockchain[|blockchain| - 1];
      this.file := file;
      this.digest := digest;
    }

    /** `add_block`: append the successor of `previous_block`, then run `check_integrity`. */
    method AddBlock(data: string, now: Timestamp) returns (added: Block, ok: bool)
      requires Valid()
      modifies this`chain, this`previous
      ensures Valid()
      ensures added == NextBlock(old(previous), data, now, digest)
      ensures chain == old(chain) + [added] && previous == added
      ensures ok == IntegrityOk(chain, digest)
      ensures old(IntegrityOk(chain, digest)) ==> ok
      ensures old(HashesOk(chain, digest)) ==> HashesOk(chain, digest)
      ensures old(Contiguous(chain)) ==> Contiguous(chain)
    {
      AppendNextPreserves(chain, data, now, digest);
      added := NextBlock(previous, data, now, digest);
      chain := chain + [added];
      previous := added;
      ok := CheckIntegrity(chain, digest);
    }

    /**
     * `save_blockchain_gui`: the records are written only when
     * `check_integrity` holds; otherwise the file is left as it was.
     */
    method Save() returns (ok: bool)
      requires Valid()
      modifies this`file
      ensures ok == IntegrityOk(chain, digest)
      ensures ok ==> file == Some(RecordsOf(chain))
      ensures !ok ==> file == old(file)
      ensures ok ==> Restore(file.value) == Ok(chain)
    {
      ok := CheckIntegrity(chain, digest);
      if ok {
        var records := SaveBlockchain(chain);
        file := Some(records);
        RestoreRecordsOf(chain);
      }
    }

    /** One pass of `background_integrity_check`: `true` when it would raise its alarm. */
    method BackgroundPass() returns (alarm: bool)
      requires Valid()
      ensures alarm == Alarm(chain, digest)
    {
      var linked := CheckIntegrity(chain, digest);
      var hashed := RecalculateHashesAndCheck(chain, digest);
      alarm := !linked || !hashed;
    }
  }

  /**
   * Start-up as a whole: load the file, then build the ledger. A timestamp
   * the parse rejects aborts start-up with the loader's error (the source
   * does not catch it). Without a file, or with a file that holds no blocks,
   * the ledger is one genesis block; otherwise it is the loaded list.
   */
  method Startup(file: Option<seq<Record>>, now: Timestamp, digest: Hasher) returns (result: Result<Ledger, LoadError>)
    ensures result.Ok? ==> fresh(result.value) && result.value.Valid()
                           && result.value.file == file && result.value.digest == digest
    ensures file.None? ==> result.Ok? && result.value.chain == [CreateGenesis(now, digest)]
                           && IntegrityOk(result.value.chain, digest) && HashesOk(result.value.chain, digest)
    ensures file.Some? ==> (result.Err? <==> Restore(file.value).Err?)
    ensures file.Some? && result.Err? ==> result.error == Restore(file.value).error
    ensures file.Some? && result.Ok? ==>
              result.value.chain == (if Restore(file.value).value == [] then [CreateGenesis(now, digest)]
                                     else Restore(file.value).value)
  {
    var loaded := LoadBlockchain(file, digest);
    if loaded.Err? {
      return Err(loaded.error);
    }
    GenesisChainPasses(now, digest);
    var ledger := new Ledger(loaded.value, file, now, digest);
    return Ok(ledger);
  }
}
