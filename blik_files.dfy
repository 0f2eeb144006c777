/**
 * The reconciliation router of src/api/routers/blik_files.py: the month
 * grouping helper, the "not processed" statistic, the identifier safety check,
 * the preview and match endpoints with the match summary and the session cache
 * write, and the apply endpoint that validates a whole request before it makes
 * any ledger mutation and then runs the mutations best-effort.
 *
 * The base64url codec, the CSV reader, the matcher and the filesystem are
 * parameters (see Env); the ledger is FireflyLedger.Ledger.
 */
module BlikFiles {
  import opened Results
  import opened PyText
  import opened Records
  import opened Settings
  import opened FireflyLedger

  // ---------------------------------------------------------------------------
  // group_by_month

  /** The transactions of `txs` that fall in month `k`, in input order. */
  function ByMonth(txs: seq<SimplifiedTx>, k: MonthKey): (g: seq<SimplifiedTx>)
    ensures |g| <= |txs|
    ensures forall x :: x in g ==> x in txs && MonthOf(x.date) == k
  {
    if txs == [] then []
    else
      var n := |txs| - 1;
      ByMonth(txs[..n], k) + (if MonthOf(txs[n].date) == k then [txs[n]] else [])
  }

  /** Filtering by month distributes over concatenation: each group keeps input order. */
  lemma {:induction false} ByMonthAppend(a: seq<SimplifiedTx>, b: seq<SimplifiedTx>, k: MonthKey)
    ensures ByMonth(a + b, k) == ByMonth(a, k) + ByMonth(b, k)
  {
    if b != [] {
      var n := |b| - 1;
      assert (a + b)[..|a| + n] == a + b[..n];
      ByMonthAppend(a, b[..n], k);
    } else {
      assert a + b == a;
    }
  }

  /** A transaction is in the group of its own month. */
  lemma {:induction false} ByMonthHasOwnMonth(txs: seq<SimplifiedTx>, j: int)
    requires 0 <= j < |txs|
    ensures txs[j] in ByMonth(txs, MonthOf(txs[j].date))
  {
    var n := |txs| - 1;
    if j < n {
      ByMonthHasOwnMonth(txs[..n], j);
    }
  }

  /** No two positions of `ks` hold the same key. */
  predicate Distinct<T(==)>(ks: seq<T>)
  {
    forall i, j :: 0 <= i < j < |ks| ==> ks[i] != ks[j]
  }

  /** The months of `txs` in order of first appearance: the key order of the returned dict. */
  function MonthsInOrder(txs: seq<SimplifiedTx>): (ks: seq<MonthKey>)
    ensures Distinct(ks)
    ensures forall k :: k in ks <==> ByMonth(txs, k) != []
  {
    if txs == [] then []
    else
      var n := |txs| - 1;
      var prev := MonthsInOrder(txs[..n]);
      var m := MonthOf(txs[n].date);
      if m in prev then prev else prev + [m]
  }

  /** The sum of the group sizes, over the keys `ks`. */
  function SumOfGroups(ks: seq<MonthKey>, txs: seq<SimplifiedTx>): nat
  {
    if ks == [] then 0 else SumOfGroups(ks[..|ks| - 1], txs) + |ByMonth(txs, ks[|ks| - 1])|
  }

  lemma {:induction false} SumOfGroupsStep(ks: seq<MonthKey>, txs: seq<SimplifiedTx>, t: SimplifiedTx)
    requires Distinct(ks)
    ensures SumOfGroups(ks, txs + [t]) ==
      SumOfGroups(ks, txs) + (if MonthOf(t.date) in ks then 1 else 0)
  {
    if ks != [] {
      var n := |ks| - 1;
      SumOfGroupsStep(ks[..n], txs, t);
      assert ByMonth(txs + [t], ks[n]) == ByMonth(txs, ks[n]) + (if MonthOf(t.date) == ks[n] then [t] else []) by {
        assert (txs + [t])[..|txs|] == txs;
      }
      assert MonthOf(t.date) in ks <==> MonthOf(t.date) in ks[..n] || MonthOf(t.date) == ks[n];
      assert ks[n] !in ks[..n];
    }
  }

  /** The groups partition the input: their sizes add up to the number of transactions. */
  lemma {:induction false} GroupSizesSum(txs: seq<SimplifiedTx>)
    ensures SumOfGroups(MonthsInOrder(txs), txs) == |txs|
  {
    if txs != [] {
      var n := |txs| - 1;
      var init, t := txs[..n], txs[n];
      assert init + [t] == txs;
      var prev := MonthsInOrder(init);
      var m := MonthOf(t.date);
      GroupSizesSum(init);
      SumOfGroupsStep(MonthsInOrder(txs), init, t);
      if m !in prev {
        assert MonthsInOrder(txs) == prev + [m];
        assert (prev + [m])[..|prev|] == prev;
        assert ByMonth(init, m) == [];
      }
    }
  }

  /** Sum of the sizes of the groups in `grouped`, over the keys `ks`. */
  function SumOfSizes(ks: seq<MonthKey>, grouped: map<MonthKey, seq<SimplifiedTx>>): nat
    requires forall k :: k in ks ==> k in grouped
  {
    if ks == [] then 0 else SumOfSizes(ks[..|ks| - 1], grouped) + |grouped[ks[|ks| - 1]]|
  }

  lemma {:induction false} SumOfSizesIsSumOfGroups(ks: seq<MonthKey>, grouped: map<MonthKey, seq<SimplifiedTx>>, txs: seq<SimplifiedTx>)
    requires forall k :: k in ks ==> k in grouped && grouped[k] == ByMonth(txs, k)
    ensures SumOfSizes(ks, grouped) == SumOfGroups(ks, txs)
  {
    if ks != [] {
      SumOfSizesIsSumOfGroups(ks[..|ks| - 1], grouped, txs);
    }
  }

  /**
   * `group_by_month`: one group per month present, holding that month's
   * transactions in input order; every transaction lands in its own month's
   * group and the group sizes sum to `|txs|`. `tag` is accepted and unused,
   * as in the source.
   */
  method GroupByMonth(txs: seq<SimplifiedTx>, tag: string)
    returns (months: seq<MonthKey>, grouped: map<MonthKey, seq<SimplifiedTx>>)
    ensures months == MonthsInOrder(txs)
    ensures forall k :: k in grouped <==> k in months
    ensures forall k :: k in grouped ==> grouped[k] == ByMonth(txs, k) && grouped[k] != []
    ensures forall j :: 0 <= j < |txs| ==>
      MonthOf(txs[j].date) in grouped && txs[j] in grouped[MonthOf(txs[j].date)]
    ensures SumOfSizes(months, grouped) == |txs|
  {
    months, grouped := [], map[];
    for i := 0 to |txs|
      invariant months == MonthsInOrder(txs[..i])
      invariant forall k :: k in grouped <==> k in months
      invariant forall k :: k in grouped ==> grouped[k] == ByMonth(txs[..i], k)
    {
      var tx := txs[i];
      var key := MonthOf(tx.date);
      assert txs[..i + 1][..i] == txs[..i];
      if key in grouped {
        grouped := grouped[key := grouped[key] + [tx]];
      } else {
        grouped := grouped[key := [tx]];
        months := months + [key];
      }
    }
    assert txs[..|txs|] == txs;
    forall j | 0 <= j < |txs|
      ensures MonthOf(txs[j].date) in grouped && txs[j] in grouped[MonthOf(txs[j].date)]
    {
      ByMonthHasOwnMonth(txs, j);
    }
    SumOfSizesIsSumOfGroups(months, grouped, txs);
    GroupSizesSum(txs);
  }

  // ---------------------------------------------------------------------------
  // get_statistics: the not-processed count

  /** `not tx.tags or TAG_BLIK_DONE not in tx.tags`. */
  predicate IsNotProcessed(tx: SimplifiedTx, tagDone: string)
  {
    |tx.tags| == 0 || tagDone !in tx.tags
  }

  /** The `not_processed` comprehension over the simplified transactions. */
  function NotProcessed(simplified: seq<SimplifiedTx>, tagDone: string): (r: seq<SimplifiedTx>)
    ensures |r| <= |simplified|
    ensures forall x :: x in r ==> x in simplified && tagDone !in x.tags
  {
    if simplified == [] then []
    else
      var n := |simplified| - 1;
      NotProcessed(simplified[..n], tagDone) +
        (if IsNotProcessed(simplified[n], tagDone) then [simplified[n]] else [])
  }

  /** The empty-tags test is subsumed by the membership test. */
  lemma NotProcessedIsUntagged(tx: SimplifiedTx, tagDone: string)
    ensures IsNotProcessed(tx, tagDone) <==> tagDone !in tx.tags
  {
  }

  /** Every transaction without the tag is counted, in input order. */
  lemma {:induction false} NotProcessedComplete(simplified: seq<SimplifiedTx>, tagDone: string, j: int)
    requires 0 <= j < |simplified| && tagDone !in simplified[j].tags
    ensures simplified[j] in NotProcessed(simplified, tagDone)
  {
    var n := |simplified| - 1;
    if j < n {
      NotProcessedComplete(simplified[..n], tagDone, j);
    }
  }

  /** The filter distributes over concatenation, so it keeps the relative order of what it keeps. */
  lemma {:induction false} NotProcessedAppend(a: seq<SimplifiedTx>, b: seq<SimplifiedTx>, tagDone: string)
    ensures NotProcessed(a + b, tagDone) == NotProcessed(a, tagDone) + NotProcessed(b, tagDone)
  {
    if b != [] {
      var n := |b| - 1;
      assert (a + b)[..|a| + n] == a + b[..n];
      NotProcessedAppend(a, b[..n], tagDone);
    } else {
      assert a + b == a;
    }
  }

  // ---------------------------------------------------------------------------
  // The match summary

  /** How a match result is counted in the summary. */
  datatype Classification = Unmatched | UniqueMatch | Ambiguous

  /** `not r.matches`, `len(r.matches) == 1` and `len(r.matches) > 1`, in that order. */
  function Classify(r: MatchResult): Classification
  {
    if |r.matches| == 0 then Unmatched else if |r.matches| == 1 then UniqueMatch else Ambiguous
  }

  /** Each result satisfies exactly one of the three summary tests. */
  lemma ClassifyIsExclusive(r: MatchResult)
    ensures (Classify(r) == Unmatched) <==> |r.matches| == 0
    ensures (Classify(r) == UniqueMatch) <==> |r.matches| == 1
    ensures (Classify(r) == Ambiguous) <==> |r.matches| > 1
  {
  }

  /** The number of results of `report` in bucket `c`. */
  function CountOf(report: seq<MatchResult>, c: Classification): nat
  {
    if report == [] then 0
    else CountOf(report[..|report| - 1], c) + (if Classify(report[|report| - 1]) == c then 1 else 0)
  }

  datatype MatchSummary = MatchSummary(notMatched: nat, withOneMatch: nat, withManyMatches: nat)

  lemma {:induction false} BucketsCoverReport(report: seq<MatchResult>)
    ensures CountOf(report, Unmatched) + CountOf(report, UniqueMatch) + CountOf(report, Ambiguous) == |report|
  {
    if report != [] {
      BucketsCoverReport(report[..|report| - 1]);
    }
  }

  /** The three counts of `do_match`: every entry of the report is in exactly one of them. */
  function Summarize(report: seq<MatchResult>): (s: MatchSummary)
    ensures s.notMatched + s.withOneMatch + s.withManyMatches == |report|
  {
    BucketsCoverReport(report);
    MatchSummary(CountOf(report, Unmatched), CountOf(report, UniqueMatch), CountOf(report, Ambiguous))
  }

  // ---------------------------------------------------------------------------
  // The identifier check and the upload path

  /** `"/" in decoded or ".." in decoded` is the rejection test; this is its negation. */
  predicate IsSafeFileId(decoded: string)
  {
    '/' !in decoded && !Contains(decoded, "..")
  }

  /** POSIX `os.path.join(dir, name)` for one name. */
  function PathJoin(dir: string, name: string): string
  {
    if StartsWith(name, "/") then name
    else if dir == [] || dir[|dir| - 1] == '/' then dir + name
    else dir + "/" + name
  }

  /** Where an upload's CSV lives: `<tempdir>/<decoded>.csv`. */
  function CsvPath(tempDir: string, decoded: string): string
  {
    PathJoin(tempDir, decoded + ".csv")
  }

  /**
   * An identifier that passes the check names a file directly inside the
   * temporary directory: the path is the directory followed by one component
   * that holds no separator and is neither `.` nor `..`.
   */
  lemma SafeIdStaysInTempDir(tempDir: string, decoded: string)
    requires IsSafeFileId(decoded)
    ensures var name := decoded + ".csv";
      && '/' !in name && name != "." && name != ".."
      && CsvPath(tempDir, decoded) ==
         (if tempDir == [] || tempDir[|tempDir| - 1] == '/' then tempDir else tempDir + "/") + name
  {
    var name := decoded + ".csv";
    assert name[|name| - 4..] == ".csv";
    forall i | 0 <= i < |name|
      ensures name[i] != '/'
    {
      if i < |decoded| {
        assert name[i] == decoded[i];
      }
    }
    assert !StartsWith(name, "/") by {
      assert name[0] != '/';
    }
  }

  /** Two dots at position `i`. */
  predicate DotDotAt(d: string, i: int)
    requires 0 <= i < |d| - 1
  {
    d[i] == '.' && d[i + 1] == '.'
  }

  /** An identifier is accepted exactly when no character is a separator and no two adjacent characters are both dots. */
  lemma SafeFileIdIff(decoded: string)
    ensures IsSafeFileId(decoded) <==>
      (forall i :: 0 <= i < |decoded| ==> decoded[i] != '/') &&
      (forall i :: 0 <= i < |decoded| - 1 ==> !DotDotAt(decoded, i))
  {
    ContainsIff(decoded, "..");
    forall i | 0 <= i < |decoded| - 1
      ensures DotDotAt(decoded, i) <==> OccursAt(decoded, "..", i)
    {
      if DotDotAt(decoded, i) {
        assert decoded[i..i + 2] == "..";
      }
      if OccursAt(decoded, "..", i) {
        assert decoded[i..i + 2][0] == decoded[i] && decoded[i..i + 2][1] == decoded[i + 1];
      }
    }
    assert (exists i :: OccursAt(decoded, "..", i)) ==> exists i :: 0 <= i < |decoded| - 1 && DotDotAt(decoded, i);
  }

  // ---------------------------------------------------------------------------
  // The environment of the endpoints

  /** An HTTP error response: status code and `detail`. */
  datatype HttpError = HttpError(status: int, detail: string)

  /** What FastAPI answers for an exception the handler does not catch. */
  const InternalServerError := HttpError(500, "Internal Server Error")
  const InvalidFileId := HttpError(400, "Invalid file id")
  const FileNotFound := HttpError(404, "File not found")
  const ConfigErrorResponse := HttpError(500, "Config error")
  const InvalidOrCorruptedId := HttpError(500, "Invalid or corrupted id")

  /**
   * The collaborators of the preview and match endpoints, left uninterpreted:
   * `decode` is decode_base64url (None when it raises), `fileExists` is
   * os.path.exists, `parseCsv` is BankCSVReader(path).parse() (None when it
   * raises), and `matcher` is TransactionProcessor.match against the ledger's
   * current transactions, called with (records, description filter,
   * exact_match, tag).
   */
  datatype Env = Env(
    decode: string -> Option<string>,
    tempDir: string,
    fileExists: string -> bool,
    parseCsv: string -> Option<seq<BankRecord>>,
    config: Config,
    matcher: (seq<BankRecord>, string, bool, string) -> seq<MatchResult>)

  // ---------------------------------------------------------------------------
  // get_tempfile (preview)

  datatype FilePreviewResponse = FilePreviewResponse(fileId: string, decodedName: string, size: nat, content: seq<BankRecord>)

  /**
   * `get_tempfile`: every failure inside the `try`, including its own 400 and
   * 404, is answered by the catch-all with 500 "Invalid or corrupted id".
   */
  function GetTempfile(encodedId: string, env: Env): (r: Result<FilePreviewResponse, HttpError>)
    ensures r.Err? ==> r.error == InvalidOrCorruptedId
    ensures r.Ok? <==>
      && env.decode(encodedId).Some?
      && IsSafeFileId(env.decode(encodedId).value)
      && env.fileExists(CsvPath(env.tempDir, env.decode(encodedId).value))
      && env.parseCsv(CsvPath(env.tempDir, env.decode(encodedId).value)).Some?
    ensures r.Ok? ==> r.value.size == |r.value.content| && r.value.fileId == encodedId
  {
    match env.decode(encodedId)
    case None => Err(InvalidOrCorruptedId)
    case Some(decoded) =>
      if !IsSafeFileId(decoded) then Err(InvalidOrCorruptedId)
      else
        var path := CsvPath(env.tempDir, decoded);
        if !env.fileExists(path) then Err(InvalidOrCorruptedId)
        else
          match env.parseCsv(path)
          case None => Err(InvalidOrCorruptedId)
          case Some(csvData) => Ok(FilePreviewResponse(encodedId, decoded, |csvData|, csvData))
  }

  // ---------------------------------------------------------------------------
  // do_match

  datatype FileMatchResponse = FileMatchResponse(
    fileId: string,
    decodedName: string,
    recordsInFile: nat,
    transactionsFound: nat,
    transactionsNotMatched: nat,
    transactionsWithOneMatch: nat,
    transactionsWithManyMatches: nat,
    content: seq<MatchResult>)

  /**
   * Everything `do_match` computes before it writes the cache: the checks in
   * source order (decode, traversal, existence, parse, ledger configuration),
   * then the match with `exact_match=False` and the done tag, and the summary.
   */
  function MatchReport(encodedId: string, env: Env): (r: Result<FileMatchResponse, HttpError>)
    ensures r.Ok? ==>
      && r.value.transactionsNotMatched + r.value.transactionsWithOneMatch + r.value.transactionsWithManyMatches
         == r.value.transactionsFound == |r.value.content|
      && r.value.fileId == encodedId
      && FireflyConfigured(env.config)
    ensures env.decode(encodedId).Some? && !IsSafeFileId(env.decode(encodedId).value) ==> r == Err(InvalidFileId)
    ensures r == Err(ConfigErrorResponse) ==> !FireflyConfigured(env.config)
  {
    match env.decode(encodedId)
    case None => Err(InternalServerError)
    case Some(decoded) =>
      if !IsSafeFileId(decoded) then Err(InvalidFileId)
      else
        var path := CsvPath(env.tempDir, decoded);
        if !env.fileExists(path) then Err(FileNotFound)
        else
          match env.parseCsv(path)
          case None => Err(InternalServerError)
          case Some(csvData) =>
            if !FireflyConfigured(env.config) then Err(ConfigErrorResponse)
            else
              var report := env.matcher(csvData, env.config.blikDescriptionFilter, false, env.config.tagBlikDone);
              var s := Summarize(report);
              Ok(FileMatchResponse(encodedId, decoded, |csvData|, |report|,
                                   s.notMatched, s.withOneMatch, s.withManyMatches, report))
  }

  /**
   * An unsafe identifier is answered before any path is built: neither the
   * filesystem nor the CSV reader can change the answer, which is 400 on the
   * match path and the catch-all's 500 on the preview path.
   */
  lemma UnsafeIdAnsweredBeforeFilesystem(encodedId: string, env: Env,
                                         fileExists: string -> bool, parseCsv: string -> Option<seq<BankRecord>>)
    requires env.decode(encodedId).Some? && !IsSafeFileId(env.decode(encodedId).value)
    ensures MatchReport(encodedId, env) == MatchReport(encodedId, env.(fileExists := fileExists, parseCsv := parseCsv))
    ensures MatchReport(encodedId, env) == Err(InvalidFileId)
    ensures GetTempfile(encodedId, env) == Err(InvalidOrCorruptedId)
  {
  }

  /**
   * As written, the preview's catch-all also catches the preview's own 400 and
   * 404: a rejected identifier or a missing file is answered 500 "Invalid or
   * corrupted id", while the match endpoint answers the same request 400 or 404.
   */
  lemma PreviewMasksRejections(encodedId: string, env: Env)
    requires env.decode(encodedId).Some?
    requires var d := env.decode(encodedId).value;
      !IsSafeFileId(d) || !env.fileExists(CsvPath(env.tempDir, d))
    ensures GetTempfile(encodedId, env) == Err(InvalidOrCorruptedId)
    ensures MatchReport(encodedId, env) == Err(InvalidFileId) || MatchReport(encodedId, env) == Err(FileNotFound)
  {
  }

  /**
   * The preview with its own HTTP errors let through the catch-all: only a
   * failure to decode or to parse becomes 500 "Invalid or corrupted id".
   */
  function GetTempfileReraising(encodedId: string, env: Env): (r: Result<FilePreviewResponse, HttpError>)
    ensures r.Ok? <==> GetTempfile(encodedId, env).Ok?
    ensures r.Ok? ==> r == GetTempfile(encodedId, env)
    ensures r.Err? ==> r.error in {InvalidOrCorruptedId, InvalidFileId, FileNotFound}
  {
    match env.decode(encodedId)
    case None => Err(InvalidOrCorruptedId)
    case Some(decoded) =>
      if !IsSafeFileId(decoded) then Err(InvalidFileId)
      else
        var path := CsvPath(env.tempDir, decoded);
        if !env.fileExists(path) then Err(FileNotFound)
        else
          match env.parseCsv(path)
          case None => Err(InvalidOrCorruptedId)
          case Some(csvData) => Ok(FilePreviewResponse(encodedId, decoded, |csvData|, csvData))
  }

  /** With the rejections let through, preview and match answer a bad identifier or a missing file alike. */
  lemma PreviewAgreesWithMatchOnRejections(encodedId: string, env: Env)
    requires env.decode(encodedId).Some?
    requires var d := env.decode(encodedId).value;
      !IsSafeFileId(d) || !env.fileExists(CsvPath(env.tempDir, d))
    ensures GetTempfileReraising(encodedId, env).Err?
    ensures GetTempfileReraising(encodedId, env).error == MatchReport(encodedId, env).error
  {
  }

  /** The cache write: the key now holds the new report and every other key is untouched. */
  function CacheWrite(cache: map<string, seq<MatchResult>>, key: string, report: seq<MatchResult>)
    : (r: map<string, seq<MatchResult>>)
    ensures r.Keys == cache.Keys + {key}
    ensures r[key] == report
    ensures forall k :: k in cache && k != key ==> r[k] == cache[k]
  {
    cache[key := report]
  }

  // ---------------------------------------------------------------------------
  // apply_matches: validation

  /** The apply endpoint's rejections, each with its HTTP answer (see ToHttp). */
  datatype ApplyError =
    | NoMatchData                 // 400 "No match data found"
    | TxNotFound(reqId: int)      // 400 "Transaction id {req_id} not found"
    | NotExactlyOneMatch(txId: int) // 400 "Transaction id {tx.id} does not have exactly one match"
    | ConfigError                 // 500 "Config error"

  function ToHttp(e: ApplyError): HttpError
  {
    match e
    case NoMatchData => HttpError(400, "No match data found")
    case TxNotFound(id) => HttpError(400, "Transaction id " + IntToString(id) + " not found")
    case NotExactlyOneMatch(id) => HttpError(400, "Transaction id " + IntToString(id) + " does not have exactly one match")
    case ConfigError => ConfigErrorResponse
  }

  /**
   * `{int(item.tx.id): item for item in data}`: a later item with the same
   * record id overwrites an earlier one.
   */
  function Index(data: seq<MatchResult>): map<int, MatchResult>
  {
    if data == [] then map[]
    else
      var n := |data| - 1;
      Index(data[..n])[data[n].tx.id := data[n]]
  }

  /** Every record id of the session is a key of the index. */
  lemma {:induction false} IndexCovers(data: seq<MatchResult>)
    ensures forall j :: 0 <= j < |data| ==> data[j].tx.id in Index(data)
  {
    if data != [] {
      var n := |data| - 1;
      IndexCovers(data[..n]);
      assert forall j :: 0 <= j < n ==> data[..n][j] == data[j];
    }
  }

  /** An index entry is a session item carrying that record id. */
  lemma {:induction false} IndexEntryHasItsId(data: seq<MatchResult>, id: int)
    requires id in Index(data)
    ensures Index(data)[id].tx.id == id && Index(data)[id] in data
  {
    var n := |data| - 1;
    if id != data[n].tx.id {
      IndexEntryHasItsId(data[..n], id);
      assert Index(data[..n])[id] in data[..n];
    }
  }

  /** The last item with a given record id is the one the index keeps. */
  lemma {:induction false} IndexLastWins(data: seq<MatchResult>, j: int)
    requires 0 <= j < |data|
    requires forall j' :: j < j' < |data| ==> data[j'].tx.id != data[j].tx.id
    ensures data[j].tx.id in Index(data) && Index(data)[data[j].tx.id] == data[j]
  {
    var n := |data| - 1;
    if j < n {
      assert data[..n][j] == data[j];
      IndexLastWins(data[..n], j);
    }
  }

  /** The position of the first requested id the index does not know, if any. */
  function FirstMissing(ids: seq<int>, index: map<int, MatchResult>): (r: Option<nat>)
    ensures r.None? <==> forall k :: 0 <= k < |ids| ==> ids[k] in index
    ensures r.Some? ==> (r.value < |ids| && ids[r.value] !in index &&
      forall k :: 0 <= k < r.value ==> ids[k] in index)
  {
    if ids == [] then None
    else if ids[0] !in index then Some(0)
    else
      var rest := FirstMissing(ids[1..], index);
      assert forall k :: 0 < k < |ids| ==> ids[1..][k - 1] == ids[k];
      match rest
      case None => None
      case Some(j) => Some(j + 1)
  }

  /** `to_update`: the index entry of every requested id, in request order, duplicates kept. */
  function Select(index: map<int, MatchResult>, ids: seq<int>): (r: seq<MatchResult>)
    requires forall k :: 0 <= k < |ids| ==> ids[k] in index
  {
    seq(|ids|, k requires 0 <= k < |ids| => index[ids[k]])
  }

  /** The position of the first selected result without exactly one candidate, if any. */
  function FirstAmbiguous(toUpdate: seq<MatchResult>): (r: Option<nat>)
    ensures r.None? <==> forall k :: 0 <= k < |toUpdate| ==> |toUpdate[k].matches| == 1
    ensures r.Some? ==> (r.value < |toUpdate| && |toUpdate[r.value].matches| != 1 &&
      forall k :: 0 <= k < r.value ==> |toUpdate[k].matches| == 1)
  {
    if toUpdate == [] then None
    else if |toUpdate[0].matches| != 1 then Some(0)
    else
      var rest := FirstAmbiguous(toUpdate[1..]);
      assert forall k :: 0 < k < |toUpdate| ==> toUpdate[1..][k - 1] == toUpdate[k];
      match rest
      case None => None
      case Some(j) => Some(j + 1)
  }

  /**
   * The validation phase of `apply_matches`, up to and including the ledger
   * configuration check: the session lookup, then every requested id, then
   * every selected result. On success, the items to update, one per request.
   */
  function Plan(cache: map<string, seq<MatchResult>>, encodedId: string, txIndexes: seq<int>, configured: bool)
    : (r: Result<seq<MatchResult>, ApplyError>)
    ensures r.Ok? ==> |r.value| == |txIndexes| && forall k :: 0 <= k < |r.value| ==> |r.value[k].matches| == 1
  {
    if encodedId !in cache then Err(NoMatchData)
    else
      var index := Index(cache[encodedId]);
      match FirstMissing(txIndexes, index)
      case Some(j) => Err(TxNotFound(txIndexes[j]))
      case None =>
        var toUpdate := Select(index, txIndexes);
        match FirstAmbiguous(toUpdate)
        case Some(j) => Err(NotExactlyOneMatch(toUpdate[j].tx.id))
        case None => if !configured then Err(ConfigError) else Ok(toUpdate)
  }

  /** An unknown session is rejected whatever is requested. */
  lemma PlanUnknownSession(cache: map<string, seq<MatchResult>>, encodedId: string, txIndexes: seq<int>, configured: bool)
    requires encodedId !in cache
    ensures Plan(cache, encodedId, txIndexes, configured) == Err(NoMatchData)
  {
  }

  /**
   * One unknown record id rejects the whole request, naming the first unknown
   * id in request order, even when an ambiguous result was requested earlier.
   */
  lemma PlanUnknownRecord(cache: map<string, seq<MatchResult>>, encodedId: string, txIndexes: seq<int>,
                          configured: bool, i: int)
    requires encodedId in cache
    requires 0 <= i < |txIndexes| && txIndexes[i] !in Index(cache[encodedId])
    requires forall k :: 0 <= k < i ==> txIndexes[k] in Index(cache[encodedId])
    ensures Plan(cache, encodedId, txIndexes, configured) == Err(TxNotFound(txIndexes[i]))
  {
    var index := Index(cache[encodedId]);
    var r := FirstMissing(txIndexes, index);
    assert r.Some?;
    assert r.value == i;
  }

  /**
   * When every id is known, a selected result without exactly one candidate
   * rejects the whole request, naming the first such record.
   */
  lemma PlanAmbiguous(cache: map<string, seq<MatchResult>>, encodedId: string, txIndexes: seq<int>,
                      configured: bool, i: int)
    requires encodedId in cache
    requires forall k :: 0 <= k < |txIndexes| ==> txIndexes[k] in Index(cache[encodedId])
    requires 0 <= i < |txIndexes| && |Index(cache[encodedId])[txIndexes[i]].matches| != 1
    requires forall k :: 0 <= k < i ==> |Index(cache[encodedId])[txIndexes[k]].matches| == 1
    ensures Plan(cache, encodedId, txIndexes, configured) == Err(NotExactlyOneMatch(txIndexes[i]))
  {
    var index := Index(cache[encodedId]);
    var toUpdate := Select(index, txIndexes);
    assert forall k :: 0 <= k < |txIndexes| ==> toUpdate[k] == index[txIndexes[k]];
    var r := FirstAmbiguous(toUpdate);
    assert r.Some?;
    assert r.value == i;
    IndexEntryHasItsId(cache[encodedId], txIndexes[i]);
  }

  /**
   * Validation passes exactly when the session exists, every requested id is
   * known, every selected result has one candidate and the ledger is
   * configured; the items are then the index entries in request order.
   */
  lemma {:induction false} PlanOk(cache: map<string, seq<MatchResult>>, encodedId: string, txIndexes: seq<int>, configured: bool)
    ensures var r := Plan(cache, encodedId, txIndexes, configured);
      r.Ok? <==>
        && encodedId in cache
        && (forall k :: 0 <= k < |txIndexes| ==> txIndexes[k] in Index(cache[encodedId]))
        && (forall k :: 0 <= k < |txIndexes| ==> |Index(cache[encodedId])[txIndexes[k]].matches| == 1)
        && configured
    ensures var r := Plan(cache, encodedId, txIndexes, configured);
      r.Ok? ==> forall k :: 0 <= k < |txIndexes| ==>
        r.value[k] == Index(cache[encodedId])[txIndexes[k]] && r.value[k].tx.id == txIndexes[k]
  {
    if encodedId in cache {
      var index := Index(cache[encodedId]);
      if FirstMissing(txIndexes, index).None? {
        var toUpdate := Select(index, txIndexes);
        assert forall k :: 0 <= k < |txIndexes| ==> toUpdate[k] == index[txIndexes[k]];
        forall k | 0 <= k < |txIndexes|
          ensures index[txIndexes[k]].tx.id == txIndexes[k]
        {
          IndexEntryHasItsId(cache[encodedId], txIndexes[k]);
        }
      }
    }
  }

  /** A configuration error is only reported once the request itself is valid. */
  lemma PlanConfigErrorComesLast(cache: map<string, seq<MatchResult>>, encodedId: string, txIndexes: seq<int>)
    requires Plan(cache, encodedId, txIndexes, false) == Err(ConfigError)
    ensures Plan(cache, encodedId, txIndexes, true).Ok?
  {
  }

  // ---------------------------------------------------------------------------
  // apply_matches: execution

  /** The mutation each validated item asks for: its record and its one candidate. */
  function AttemptsFor(toUpdate: seq<MatchResult>): seq<Attempt>
    requires forall k :: 0 <= k < |toUpdate| ==> |toUpdate[k].matches| >= 1
  {
    seq(|toUpdate|, k requires 0 <= k < |toUpdate| => Attempt(toUpdate[k].tx, toUpdate[k].matches[0]))
  }

  /** The ledger's answer to each attempt, the first of them being attempt number `start`. */
  function Outcomes(failure: FailureOracle, start: nat, atts: seq<Attempt>): seq<Option<string>>
  {
    seq(|atts|, k requires 0 <= k < |atts| => failure(start + k, atts[k]))
  }

  /** The attempts whose outcome is a success, in order. */
  function Succeeded(atts: seq<Attempt>, outcomes: seq<Option<string>>): (r: seq<Attempt>)
    requires |outcomes| == |atts|
    ensures |r| <= |atts|
  {
    if atts == [] then []
    else
      var n := |atts| - 1;
      Succeeded(atts[..n], outcomes[..n]) + (if outcomes[n].None? then [atts[n]] else [])
  }

  /** A failed item: its record id and the ledger's message. */
  datatype ItemFailure = ItemFailure(recordId: int, reason: string)

  /** The text appended to `errors` for a failed item. */
  function ItemErrorMessage(f: ItemFailure): string
  {
    "Error updating transaction id " + IntToString(f.recordId) + ": " + f.reason
  }

  /** The `errors` list of the response, one message per failure, in order. */
  function ErrorMessages(failures: seq<ItemFailure>): (msgs: seq<string>)
    ensures |msgs| == |failures|
  {
    seq(|failures|, k requires 0 <= k < |failures| => ItemErrorMessage(failures[k]))
  }

  /** Distinct failures give distinct messages: a message names its record id and reason. */
  lemma {:induction false} ItemErrorMessageInjective(f: ItemFailure, g: ItemFailure)
    requires ItemErrorMessage(f) == ItemErrorMessage(g)
    ensures f == g
  {
    var prefix := "Error updating transaction id ";
    var a, b := IntToString(f.recordId), IntToString(g.recordId);
    assert prefix + a + ": " + f.reason == prefix + (a + ": " + f.reason);
    assert prefix + b + ": " + g.reason == prefix + (b + ": " + g.reason);
    var ta, tb := a + ": " + f.reason, b + ": " + g.reason;
    assert ta == ItemErrorMessage(f)[|prefix|..];
    assert tb == ItemErrorMessage(g)[|prefix|..];
    assert ta == tb;
    IntTextBeforeColon(a, f.reason, b, g.reason, f.recordId, g.recordId);
  }

  /** `str(n) + ": " + reason` determines `n` and `reason`, since a colon is not part of `str(n)`. */
  lemma {:induction false} IntTextBeforeColon(a: string, ra: string, b: string, rb: string, na: int, nb: int)
    requires a == IntToString(na) && b == IntToString(nb)
    requires a + ": " + ra == b + ": " + rb
    ensures na == nb && ra == rb
  {
    ParseIntToString(na);
    ParseIntToString(nb);
    var t := a + ": " + ra;
    assert t == b + ": " + rb;
    if |a| < |b| {
      assert t[|a|] == ':';
      assert t[|a|] == b[|a|];
      IntTextHasNoColon(b, |a|);
    } else if |b| < |a| {
      assert t[|b|] == ':';
      assert t[|b|] == a[|b|];
      IntTextHasNoColon(a, |b|);
    } else {
      assert a == t[..|a|] == b;
      IntToStringInjective(na, nb);
      assert ra == t[|a| + 2..] == rb;
    }
  }

  /** No character of `str(n)` is a colon. */
  lemma IntTextHasNoColon(s: string, i: int)
    requires IsIntText(s) && 0 <= i < |s|
    ensures s[i] != ':'
  {
    if IsDigits(s) {
      assert '0' <= s[i] <= '9';
    } else if i > 0 {
      assert s[1..][i - 1] == s[i];
    }
  }

  datatype Execution = Execution(updated: nat, failures: seq<ItemFailure>)

  /** The loop body's bookkeeping: a success counts, a failure is recorded and the loop goes on. */
  function Record(ex: Execution, item: MatchResult, outcome: Option<string>): Execution
  {
    match outcome
    case None => Execution(ex.updated + 1, ex.failures)
    case Some(reason) => Execution(ex.updated, ex.failures + [ItemFailure(item.tx.id, reason)])
  }

  /** The execution loop of `apply_matches`, given the outcome of each item. */
  function Execute(toUpdate: seq<MatchResult>, outcomes: seq<Option<string>>): (e: Execution)
    requires |outcomes| == |toUpdate|
    ensures e.updated + |e.failures| == |toUpdate|
  {
    if toUpdate == [] then Execution(0, [])
    else
      var n := |toUpdate| - 1;
      Record(Execute(toUpdate[..n], outcomes[..n]), toUpdate[n], outcomes[n])
  }

  /** The positions whose outcome is a failure, in increasing order. */
  function FailedPositions(outcomes: seq<Option<string>>): (p: seq<nat>)
    ensures forall j :: 0 <= j < |p| ==> p[j] < |outcomes| && outcomes[p[j]].Some?
    ensures forall j, j' :: 0 <= j < j' < |p| ==> p[j] < p[j']
    ensures forall k :: 0 <= k < |outcomes| && outcomes[k].Some? ==> k in p
  {
    if outcomes == [] then []
    else
      var n := |outcomes| - 1;
      var prev := FailedPositions(outcomes[..n]);
      assert forall k :: 0 <= k < n ==> outcomes[..n][k] == outcomes[k];
      prev + (if outcomes[n].Some? then [n] else [])
  }

  /**
   * The failures are exactly the failed items, in request order, each with
   * that item's record id and the ledger's message; the rest succeeded.
   */
  lemma {:induction false} ExecuteErrorsInOrder(toUpdate: seq<MatchResult>, outcomes: seq<Option<string>>)
    requires |outcomes| == |toUpdate|
    ensures var e := Execute(toUpdate, outcomes); var p := FailedPositions(outcomes);
      && |e.failures| == |p|
      && e.updated == |toUpdate| - |p|
      && forall j :: 0 <= j < |p| ==>
           e.failures[j] == ItemFailure(toUpdate[p[j]].tx.id, outcomes[p[j]].value)
  {
    if toUpdate != [] {
      var n := |toUpdate| - 1;
      ExecuteErrorsInOrder(toUpdate[..n], outcomes[..n]);
      var p0 := FailedPositions(outcomes[..n]);
      assert forall j :: 0 <= j < |p0| ==> p0[j] < n;
    }
  }

  /** The successful mutations number exactly `updated`. */
  lemma {:induction false} SucceededCountsUpdated(toUpdate: seq<MatchResult>, atts: seq<Attempt>, outcomes: seq<Option<string>>)
    requires |outcomes| == |toUpdate| == |atts|
    ensures |Succeeded(atts, outcomes)| == Execute(toUpdate, outcomes).updated
  {
    if toUpdate != [] {
      var n := |toUpdate| - 1;
      SucceededCountsUpdated(toUpdate[..n], atts[..n], outcomes[..n]);
    }
  }

  /** When no mutation fails, every requested item is counted and there are no errors. */
  lemma {:induction false} ExecuteAllSucceed(toUpdate: seq<MatchResult>, outcomes: seq<Option<string>>)
    requires |outcomes| == |toUpdate|
    requires forall k :: 0 <= k < |outcomes| ==> outcomes[k].None?
    ensures Execute(toUpdate, outcomes) == Execution(|toUpdate|, [])
  {
    if toUpdate != [] {
      var n := |toUpdate| - 1;
      ExecuteAllSucceed(toUpdate[..n], outcomes[..n]);
    }
  }

  datatype FileApplyResponse = FileApplyResponse(fileId: string, updated: nat, errors: seq<string>)

  // ---------------------------------------------------------------------------
  // The router state

  /** The router module's global `MEM_MATCHES`, with the endpoints that use it. */
  class BlikFilesRouter {
    /** `MEM_MATCHES`: the latest match report per encoded file id. */
    var memMatches: map<string, seq<MatchResult>>

    constructor ()
      ensures memMatches == map[]
    {
      memMatches := map[];
    }

    /**
     * `do_match`: on success the report replaces the cached one for this id,
     * wholesale, and no other id changes; on any failure the cache is untouched.
     */
    method DoMatch(encodedId: string, env: Env) returns (r: Result<FileMatchResponse, HttpError>)
      modifies this
      ensures r == MatchReport(encodedId, env)
      ensures r.Ok? ==> memMatches == CacheWrite(old(memMatches), encodedId, r.value.content)
      ensures r.Err? ==> memMatches == old(memMatches)
    {
      r := MatchReport(encodedId, env);
      if r.Ok? {
        memMatches := CacheWrite(memMatches, encodedId, r.value.content);
      }
    }

    /**
     * The two validation loops of `apply_matches` and its configuration
     * check: the first unknown id, then the first selected result without
     * exactly one candidate, then the configuration, each rejecting the whole
     * request. Neither the cache nor the ledger is touched.
     */
    method Validate(encodedId: string, txIndexes: seq<int>, config: Config)
      returns (r: Result<seq<MatchResult>, ApplyError>)
      ensures r == Plan(memMatches, encodedId, txIndexes, FireflyConfigured(config))
    {
      if encodedId !in memMatches {
        return Err(NoMatchData);
      }
      var index := Index(memMatches[encodedId]);

      var toUpdate: seq<MatchResult> := [];
      var i := 0;
      while i < |txIndexes|
        invariant 0 <= i <= |txIndexes|
        invariant forall k :: 0 <= k < i ==> txIndexes[k] in index
        invariant |toUpdate| == i && forall k :: 0 <= k < i ==> toUpdate[k] == index[txIndexes[k]]
      {
        var reqId := txIndexes[i];
        if reqId !in index {
          PlanUnknownRecord(memMatches, encodedId, txIndexes, FireflyConfigured(config), i);
          return Err(TxNotFound(reqId));
        }
        toUpdate := toUpdate + [index[reqId]];
        i := i + 1;
      }
      assert toUpdate == Select(index, txIndexes);

      i := 0;
      while i < |toUpdate|
        invariant 0 <= i <= |toUpdate|
        invariant forall k :: 0 <= k < i ==> |toUpdate[k].matches| == 1
      {
        if |toUpdate[i].matches| != 1 {
          assert FirstAmbiguous(toUpdate).Some? && FirstAmbiguous(toUpdate).value == i;
          return Err(NotExactlyOneMatch(toUpdate[i].tx.id));
        }
        i := i + 1;
      }
      if !FireflyConfigured(config) {
        return Err(ConfigError);
      }
      return Ok(toUpdate);
    }

    /**
     * `apply_matches`: the request is validated in full against the cached
     * session before any ledger call, and a rejection leaves the ledger exactly
     * as it was. After validation every item gets exactly one `apply_match`
     * attempt, in request order; a failure adds one message to `errors`
     * without stopping the loop, and `updated` counts the mutations that took
     * effect. The cache is only read.
     */
    method ApplyMatches(encodedId: string, txIndexes: seq<int>, config: Config, ledger: Ledger)
      returns (r: Result<FileApplyResponse, HttpError>)
      modifies ledger
      ensures var plan := Plan(memMatches, encodedId, txIndexes, FireflyConfigured(config));
        match plan
        case Err(e) =>
          r == Err(ToHttp(e)) && ledger.attempts == old(ledger.attempts) && ledger.applied == old(ledger.applied)
        case Ok(toUpdate) =>
          var atts := AttemptsFor(toUpdate);
          var outcomes := Outcomes(ledger.failure, |old(ledger.attempts)|, atts);
          var ex := Execute(toUpdate, outcomes);
          && ledger.attempts == old(ledger.attempts) + atts
          && ledger.applied == old(ledger.applied) + Succeeded(atts, outcomes)
          && r == Ok(FileApplyResponse(encodedId, ex.updated, ErrorMessages(ex.failures)))
      ensures r.Ok? ==> r.value.updated + |r.value.errors| == |txIndexes|
    {
      var plan := Validate(encodedId, txIndexes, config);
      if plan.Err? {
        return Err(ToHttp(plan.error));
      }
      ghost var atts := AttemptsFor(plan.value);
      var ex := RunUpdates(plan.value, ledger, atts, Outcomes(ledger.failure, |ledger.attempts|, atts));
      r := Ok(FileApplyResponse(encodedId, ex.updated, ErrorMessages(ex.failures)));
    }
  }

  /**
   * The execution loop of `apply_matches`: one `apply_match` per item with its
   * single candidate, in order, best-effort.
   */
  method RunUpdates(toUpdate: seq<MatchResult>, ledger: Ledger, ghost atts: seq<Attempt>, ghost outcomes: seq<Option<string>>)
    returns (ex: Execution)
    requires |atts| == |toUpdate| == |outcomes|
    requires forall k :: 0 <= k < |toUpdate| ==>
      |toUpdate[k].matches| == 1 && atts[k] == Attempt(toUpdate[k].tx, toUpdate[k].matches[0])
    requires forall k :: 0 <= k < |toUpdate| ==> outcomes[k] == ledger.failure(|ledger.attempts| + k, atts[k])
    modifies ledger
    ensures ex == Execute(toUpdate, outcomes)
    ensures ledger.attempts == old(ledger.attempts) + atts
    ensures ledger.applied == old(ledger.applied) + Succeeded(atts, outcomes)
  {
    ghost var attempts0, applied0 := ledger.attempts, ledger.applied;
    ex := Execution(0, []);
    for i := 0 to |toUpdate|
      invariant ledger.attempts == attempts0 + atts[..i]
      invariant ledger.applied == applied0 + Succeeded(atts[..i], outcomes[..i])
      invariant ex == Execute(toUpdate[..i], outcomes[..i])
    {
      var item := toUpdate[i];
      ghost var attemptsBefore := ledger.attempts;
      assert |attemptsBefore| == |attempts0| + i;
      var err := ledger.ApplyMatch(item.tx, item.matches[0]);
      assert err == outcomes[i];
      StepAttempts(atts, i, attempts0, attemptsBefore);
      StepSucceeded(atts, outcomes, i);
      StepExecute(toUpdate, outcomes, i);
      ex := Record(ex, item, err);
    }
    assert toUpdate[..|toUpdate|] == toUpdate;
    assert atts[..|atts|] == atts;
    assert outcomes[..|outcomes|] == outcomes;
  }

  /** One more attempt extends the attempted prefix by one. */
  lemma StepAttempts(atts: seq<Attempt>, i: int, attempts0: seq<Attempt>, attemptsBefore: seq<Attempt>)
    requires 0 <= i < |atts| && attemptsBefore == attempts0 + atts[..i]
    ensures attemptsBefore + [atts[i]] == attempts0 + atts[..i + 1]
  {
    assert atts[..i + 1] == atts[..i] + [atts[i]];
  }

  /** One more outcome extends the successful prefix by the attempt when it succeeded. */
  lemma StepSucceeded(atts: seq<Attempt>, outcomes: seq<Option<string>>, i: int)
    requires |outcomes| == |atts| && 0 <= i < |atts|
    ensures Succeeded(atts[..i + 1], outcomes[..i + 1]) ==
      Succeeded(atts[..i], outcomes[..i]) + (if outcomes[i].None? then [atts[i]] else [])
  {
    assert outcomes[..i + 1][..i] == outcomes[..i];
    assert atts[..i + 1][..i] == atts[..i];
  }

  /** One more outcome is recorded as the execution loop records it. */
  lemma StepExecute(toUpdate: seq<MatchResult>, outcomes: seq<Option<string>>, i: int)
    requires |outcomes| == |toUpdate| && 0 <= i < |toUpdate|
    ensures Execute(toUpdate[..i + 1], outcomes[..i + 1]) ==
      Record(Execute(toUpdate[..i], outcomes[..i]), toUpdate[i], outcomes[i])
  {
    assert toUpdate[..i + 1][..i] == toUpdate[..i];
    assert outcomes[..i + 1][..i] == outcomes[..i];
  }

  // ---------------------------------------------------------------------------
  // A worked session

  /**
   * Three rows with one, two and no candidates: the summary counts one of each,
   * applying row 0 is accepted with one mutation planned, and applying row 1
   * is rejected for its two candidates.
   */
  lemma ThreeRowSession(cache: map<string, seq<MatchResult>>, key: string,
                        r0: BankRecord, r1: BankRecord, r2: BankRecord,
                        t0: SimplifiedTx, t1: SimplifiedTx, t2: SimplifiedTx)
    requires r0.id == 0 && r1.id == 1 && r2.id == 2
    requires key in cache
    requires cache[key] == [MatchResult(r0, [t0]), MatchResult(r1, [t1, t2]), MatchResult(r2, [])]
    ensures Summarize(cache[key]) == MatchSummary(1, 1, 1)
    ensures Plan(cache, key, [0], true) == Ok([MatchResult(r0, [t0])])
    ensures Plan(cache, key, [1], true) == Err(NotExactlyOneMatch(1))
  {
    var data := cache[key];
    assert data[..2] == [data[0], data[1]] && data[..2][..1] == [data[0]] && [data[0]][..0] == [];
    assert Classify(data[0]) == UniqueMatch && Classify(data[1]) == Ambiguous && Classify(data[2]) == Unmatched;
    forall c: Classification
      ensures CountOf(data, c) == 1
    {
      assert CountOf([data[0]], c) == (if c == UniqueMatch then 1 else 0);
      assert CountOf(data[..2], c) == (if c == Unmatched then 0 else 1);
    }
    IndexLastWins(data, 0);
    IndexLastWins(data, 1);
    var index := Index(data);
    assert Select(index, [0]) == [data[0]];
    assert FirstAmbiguous([data[0]]) == None by {
      assert [data[0]][1..] == [];
    }
    assert Select(index, [1]) == [data[1]];
  }
}
