# Hash-linked ledger: a Dafny model

The program keeps an append-only list of blocks. Each block holds a text
payload, a timestamp, the digest of its payload (`data_hash`), the hash of
the block before it (`previous_hash`) and its own hash (`hash`). Its own
hash is the digest of its index, timestamp, data hash and previous hash.
The program can do four things:

- append a block after the last one (`add_block`);
- check every link and every digest (`check_integrity`);
- re-derive every block's own hash (`recalculate_hashes_and_check`);
- save the list as six-field records and load it back with both stored
  digests restored verbatim (`save_blockchain`, `load_blockchain`).

At start-up the program loads the saved file. If there is no file, or the
file holds no blocks, it starts from a single genesis block. A save is
refused unless `check_integrity` holds.

The model has five modules for the parts of the program and two support modules (`Wrappers` and `Decimal`):

- `Wrappers` holds `Option` and `Result`.
- `Decimal` holds the decimal text of numbers: `str(n)` and zero-padded
  fields, with the digit reader that inverts them.
- `DateTimes` holds the timestamp (a Python `datetime`), its text `str(t)`
  and the parse that loading applies to that text.
- `Blocks` holds the block, its two digests and the three ways the program
  builds a block.
- `Chains` holds both checks. Each is a loop method proved against the
  predicate it decides. The module also proves what the checks catch and
  what they miss.
- `Records` holds the record list that is saved and loaded. The loops are
  proved against `RecordsOf` and `Restore`, and the round trip is proved.
- `LedgerService` holds the `Ledger` class with the program's global state:
  the list, `previous_block` and the saved file. Its methods are start-up,
  `add_block`, the gated save and one background pass.

The SHA-256 digest is a parameter `digest: string -> string`, and nothing is
assumed about it. Only the tamper-detection lemmas add an explicit
hypothesis: that the digest never maps two texts to the same value
(`Blocks.Injective`). The current time is a parameter `now`.

The source calls `hasher.sha256` and `date.datetime`, but binds neither
name: its imports are `hashlib` and `datetime`. The model follows the
evident intent: a SHA-256 hex digest and the current time.

Places where the code does not guarantee what one might expect of such a
ledger. The model follows the code in each case:

- Nobody checks the genesis block's payload. `check_integrity` starts at
  the second block. `hash_block` reads the stored data hash, not the
  payload. So replacing the first block's data changes neither verdict
  (`Chains.GenesisDataUnchecked`). For every later block, a changed payload
  is caught when the digest is collision-free (`Chains.TamperedDataDetected`).
- A failed load has no fallback. `load_blockchain` catches only a missing
  file. A record whose timestamp does not parse raises an error that nothing
  catches, so start-up stops. `LedgerService.Startup` returns `Err` in that
  case; it does not fall back to a genesis chain.
- A failed check does not undo an append. `add_block` keeps the new block
  even when the check that follows it fails.

## Model

| member | source | states |
|---|---|---|
| `Decimal.IntTextReadsBack` | BC_datastorage.py:54 | `str(index)` reads back as the index. A non-negative index is written as its digits alone; a negative one as a minus sign before the digits of its magnitude. |
| `Decimal.IntTextInjective` | BC_datastorage.py:54 | Two different indices never give the same text. |
| `DateTimes.Render` | BC_datastorage.py:76 | `str(t)` starts with the 19 characters `YYYY-MM-DD HH:MM:SS` of the whole second. It is exactly those 19 characters when the microsecond is 0; otherwise it is 26 characters long and continues with `.` and the fraction. |
| `DateTimes.ParseStrict` | BC_datastorage.py:102 | The loader's format accepts only text of 21 to 26 characters with `.` at position 19 and nothing but digits after it. Its date and time part is read exactly as the whole-second form would read it. |
| `DateTimes.ParseWholeSecond` | BC_datastorage.py:102 | The whole-second form accepts only 19-character text, and what it reads has microsecond 0. |
| `DateTimes.WholeSecondParseIsCanonical` | BC_datastorage.py:76 | Whatever the whole-second form accepts, `str` writes back as the very same text. |
| `DateTimes.Parse` | BC_datastorage.py:102 | The corrected parse accepts exactly what the loader's format or the whole-second form accepts. Wherever the loader's format succeeds, the corrected parse gives the same timestamp and the whole-second form rejects the text. Any other text it accepts is 19 characters long and reads as a whole second. |
| `Blocks.HashDataDecidesPayload` | BC_datastorage.py:47-50 | `hash_data` depends on the payload alone. With a collision-free digest, two blocks get the same data hash only when their payloads are equal. |
| `Blocks.HashBlockReadsHeader` | BC_datastorage.py:52-58 | `hash_block` depends only on index, timestamp, stored data hash and previous hash: neither the payload nor the stored hash matters. With a collision-free digest, two blocks that agree on index, timestamp and previous hash get the same block hash only when their stored data hashes are equal. |
| `Blocks.NewBlock` | BC_datastorage.py:39-58 | The block keeps the given index, timestamp, data and previous hash. Its `data_hash` is the digest of the data. Its `hash` is the digest of index, timestamp text, data hash and previous hash, so a fresh block passes both re-derivations (`Sealed`). |
| `Blocks.NextBlock` | BC_datastorage.py:61-65 | The successor has index `last.index + 1`, `previous_hash == last.hash`, the given data and the time `now`, and it is sealed. |
| `Blocks.CreateGenesis` | BC_datastorage.py:68-69 | The first block has index 0, data `"Genesis Block"` and previous hash `"0"`, and it is sealed. |
| `Chains.CheckIntegrity` | BC_datastorage.py:115-129 | Returns true exactly when every block after the first links to its predecessor's hash and carries the data hash and block hash computed now. It stops at the first failing test and changes nothing. |
| `Chains.RecalculateHashesAndCheck` | BC_datastorage.py:131-135 | Returns true exactly when every block, the genesis block included, carries the hash computed now. |
| `Chains.ShortChainPasses` | BC_datastorage.py:115-116 | A chain of at most one block passes `check_integrity`, whatever that block holds. |
| `Chains.GenesisChainPasses` | BC_datastorage.py:137-139 | The one-block chain of a fresh start passes both checks, and its index is 0. |
| `Chains.AppendNextPreserves` | BC_datastorage.py:144-149 | Appending `next_block` of the last block keeps `check_integrity`, keeps the hash check and keeps contiguous indices. |
| `Chains.Extend` | BC_datastorage.py:144-149 | After a run of appends, the chain has grown by one block per append and its earlier blocks are unchanged. Each appended block is `next_block` of the block before it, with the data and time of its own append. |
| `Chains.ExtendPreserves` | BC_datastorage.py:144-151 | Any run of appends to a chain that passes both checks gives a chain that still passes both. Contiguous indices stay contiguous. |
| `Chains.GrownFromGenesisPasses` | BC_datastorage.py:137-151 | Every chain grown by appends from a fresh genesis block passes both checks, block `i` has index `i`, and block 0 is the genesis block. |
| `Chains.TamperedDataDetected` | BC_datastorage.py:123-124 | With a collision-free digest, changing the payload of any block after the first makes `check_integrity` fail. |
| `Chains.TamperedLinkDetected` | BC_datastorage.py:120-121 | Setting any later block's previous hash to anything but its predecessor's hash makes `check_integrity` fail. |
| `Chains.TamperedHashDetected` | BC_datastorage.py:131-135 | Overwriting the stored hash of any block, the first included, makes the hash check fail. |
| `Chains.GenesisDataUnchecked` | BC_datastorage.py:115-135 | Replacing the genesis block's payload leaves both verdicts exactly as they were. |
| `DateTimes.StrictParseInvertsRender` | BC_datastorage.py:102 | The loader's parse reads back `str(t)` as `t` whenever `t` has a non-zero microsecond. |
| `DateTimes.StrictParseRejectsWholeSecond` | BC_datastorage.py:76 | When the microsecond is 0, `str(t)` has no fraction, and the loader's parse rejects it. |
| `DateTimes.MidnightIsNotReadBack` | BC_datastorage.py:102 | Concrete case: `str` of 2024-01-01 00:00:00 is `"2024-01-01 00:00:00"`, and the loader's parse rejects that text. |
| `DateTimes.ParseInvertsRender` | BC_datastorage.py:102 | The corrected parse reads back `str(t)` as `t` for every valid timestamp. |
| `Records.RecordsOf` | BC_datastorage.py:71-82 | There is one record per block, in chain order. Record `i` holds block `i`'s index, timestamp text, data and three digests. |
| `Records.SaveBlockchain` | BC_datastorage.py:71-82 | The loop builds exactly `RecordsOf(chain)`. |
| `Records.FromRecordStrict` | BC_datastorage.py:100-107 | One loop step of the loader as written: a record becomes a block exactly when the loader's format accepts its timestamp. The block then has the record's index, data, previous hash and both stored digests, and the parsed timestamp. |
| `Records.StrictLoadRejectsWholeSecond` | BC_datastorage.py:102 | As written, the saved record of any block stamped on a whole second does not load. |
| `Records.FromRecord` | BC_datastorage.py:100-107 | A record becomes a block exactly when the corrected parse accepts its timestamp. The block keeps the record's index, data and previous hash, its timestamp is the parsed one, and it takes the stored data hash and hash verbatim, not the ones the constructor computed. Wherever the step as written succeeds, this step gives the same block. |
| `Records.Restore` | BC_datastorage.py:98-110 | A successful load has one block per record, and a failed load names a position in the list. Which block and which position: the three lemmas below. |
| `Records.RestoreLoadsEachRecord` | BC_datastorage.py:99-108 | On success, block `i` of the load is the block that record `i` yields. |
| `Records.RestoreStopsAtFirstFailure` | BC_datastorage.py:99-102 | On failure, the error names a record whose timestamp does not parse, and every record before it parses: the load stops at the first bad record. |
| `Records.RestoreSucceedsExactly` | BC_datastorage.py:98-110 | A list of records loads exactly when every timestamp in it parses. |
| `Records.RestoreFailurePersists` | BC_datastorage.py:99-102 | Once a prefix of the records fails to load, the whole list fails at the same position: the first bad record stops the load. |
| `Records.LoadBlockchain` | BC_datastorage.py:90-113 | A missing file gives the empty list. Otherwise the loop gives exactly `Restore` of the records: the blocks, or the first record whose timestamp does not parse. |
| `Records.FromToRecord` | BC_datastorage.py:71-108 | A block that is saved and loaded back under the corrected parse is the same block. |
| `Records.RestoreRecordsOf` | BC_datastorage.py:71-110 | Saving a chain and loading the records under the corrected parse gives the same chain, field for field, with no digest recomputed. |
| `Records.VerdictSurvivesReload` | BC_datastorage.py:98-135 | After save and load under the corrected parse, both checks give the same verdicts as before the save. |
| `Records.EditedRecordDetected` | BC_datastorage.py:106-107 | Digests are restored verbatim. So, with a collision-free digest, a payload edited in the saved record of any block after the first loads under the corrected parse, and then fails `check_integrity`. |
| `LedgerService.Ledger.constructor` | BC_datastorage.py:137-141 | An empty loaded list is replaced by one fresh genesis block, and a non-empty one is kept. The list is never empty, and `previous_block` is its last block. |
| `LedgerService.Startup` | BC_datastorage.py:137-141 | A missing file gives a one-block genesis chain that passes both checks. With a file, start-up fails exactly when the load fails, and with the load's error. Otherwise the chain is the loaded list, or a single fresh genesis block when the file holds no blocks. |
| `LedgerService.Ledger.AddBlock` | BC_datastorage.py:144-154 | The chain grows by exactly the successor of `previous_block`, and earlier blocks are unchanged. `previous_block` becomes the new block. The returned verdict is `check_integrity` of the new chain, and the block stays even when that verdict is false. A chain that passed before still passes. |
| `LedgerService.Ledger.Save` | BC_datastorage.py:168-173 | The records of the chain are written exactly when `check_integrity` holds; otherwise the file is unchanged. A written file loads back, under the corrected parse, to the same chain. |
| `LedgerService.Ledger.BackgroundPass` | BC_datastorage.py:182-187 | The pass raises its alarm exactly when `check_integrity` or the hash check fails. |

## Left out

- Fernet encryption and the key file (BC_datastorage.py:16-36, 85, 95) are
  not modelled. The saved file is the record list itself. Decryption with a
  wrong key and corrupted ciphertext are therefore not modelled either. The
  source does not catch those errors.
- JSON text and file reads and writes (BC_datastorage.py:84, 87-88, 92-96)
  are not modelled. The file is `Option<seq<Record>>`: `None` is a missing
  file. Record fields are typed as the program writes them, so a hand-edited
  file with a non-integer index or a non-string payload is not modelled.
- The SHA-256 algorithm is a parameter. Lemmas that depend on the digest
  distinguishing its inputs say so in a hypothesis.
- `datetime.now()` is the parameter `now`.
- DateTimes.ParseStrict reads only fixed-width, zero-padded fields of ASCII
  digits separated by exactly the characters of the format. `strptime` also
  accepts more: a one-digit month, day, hour, minute or second, a leading
  space before a field (`" 5"` for `%d`), a run of whitespace where the
  format has a space, and non-ASCII decimal digits. The program never writes
  such text, and none of it is modelled.
- Records.FromRecord, Records.Restore and Records.LoadBlockchain load with
  the corrected parse `DateTimes.Parse`, not with the format at
  BC_datastorage.py:102 alone. The loader as written is
  `Records.FromRecordStrict`; it fails on the record of every block stamped
  on a whole second (see Findings).
- The background thread, its `sleep(60)`, its stop after the first alarm
  and the sharing of the list with the foreground
  (BC_datastorage.py:182-191) are not modelled. Only one pass is modelled
  (`Ledger.BackgroundPass`). The interleaving of that pass with appends is
  concurrency.
- The tkinter window, `display_blockchain`, `check_integrity_gui` and the
  message boxes (BC_datastorage.py:156-166, 175-179, 193-220) are not
  modelled. `check_integrity_gui` only shows the result of
  `check_integrity`. The model's operations return the verdict the message
  box would show.
- In the source, `previous_block` refers to the same object as the last
  element of the list. In the model it is a copy of that value. No block is
  changed after it is appended, so the two agree (`Ledger.Valid`).

## Findings

| source | as written | input that shows it | evidently intended | confidence | as-written member | corrected member |
|---|---|---|---|---|---|---|
| BC_datastorage.py:102 | `save_blockchain` writes each timestamp as `str(t)` (line 76). For a whole second, `str(t)` has no `.ffffff` fraction. `load_blockchain` parses with `'%Y-%m-%d %H:%M:%S.%f'`, which requires the fraction, and the resulting ValueError is not caught, so start-up stops. | A chain with a block stamped 2024-01-01 00:00:00 (microsecond 0), saved as `"2024-01-01 00:00:00"` | Every saved chain loads back. The corrected parse also accepts the text without a fraction, and the load uses it. | not executed; high | `Records.StrictLoadRejectsWholeSecond` | `Records.RestoreRecordsOf` |
