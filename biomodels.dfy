/**
 * The BioModels survey of BioModels/parse_biomodels.py: fetch the list of
 * model ids and each model's record through the response cache, keep the
 * curated single-file SBML models that come with exactly one SED-ML file,
 * download both files, repair a generic `model.xml` reference, validate,
 * and report one table row per kept model, with failure counts.
 *
 * The network, URL quoting and the validators are the functions of an
 * `Env`; a file's content is text; the response cache is the one of
 * utils/__init__.py over a map of files.
 */
module BioModels {
  import opened Wrappers
  import opened Strings
  import opened Patterns
  import opened Cells
  import opened RequestCaches
  import opened MarkdownTables

  const ApiUrl := "https://www.ebi.ac.uk/biomodels"
  const OutFormat := "json"

  function IdentifiersRequest(): string {
    ApiUrl + "/model/identifiers?format=" + OutFormat
  }

  function InfoRequest(modelId: string): string {
    ApiUrl + "/" + modelId + "?format=" + OutFormat
  }

  function DownloadRequest(modelId: string, quotedName: string): string {
    ApiUrl + "/model/download/" + modelId + "?filename=" + quotedName
  }

  /** The model id can be read back from its record's request. */
  lemma InfoRequestHolds(modelId: string)
    ensures var request := InfoRequest(modelId);
      |ApiUrl| + 1 + |modelId| <= |request| && request[|ApiUrl| + 1..|ApiUrl| + 1 + |modelId|] == modelId
  {
    var head := ApiUrl + "/";
    assert InfoRequest(modelId) == head + modelId + ("?format=" + OutFormat);
  }

  /** Different models are asked for under different request strings. */
  lemma InfoRequestsApart(a: string, b: string)
    requires a != b
    ensures InfoRequest(a) != InfoRequest(b)
  {
    InfoRequestHolds(a);
    InfoRequestHolds(b);
    assert |InfoRequest(a)| == |a| + |ApiUrl| + 1 + |"?format=" + OutFormat|;
    assert |InfoRequest(b)| == |b| + |ApiUrl| + 1 + |"?format=" + OutFormat|;
  }

  /**
   * With a digest that tells request strings apart (as SHA-256 is taken to),
   * the records of different models are kept in different cache files:
   * storing one model's record leaves the entry of every other model as it was.
   */
  lemma InfoEntriesApart(direc: string, digest: string -> string, files: map<string, Payload>,
                         a: string, b: string, v: Payload)
    requires forall r1, r2 :: r1 != r2 ==> digest(r1) != digest(r2)
    requires a != b
    ensures PathOf(direc, digest, InfoRequest(a)) != PathOf(direc, digest, InfoRequest(b))
    ensures Load(files[PathOf(direc, digest, InfoRequest(a)) := v], PathOf(direc, digest, InfoRequest(b)))
      == Load(files, PathOf(direc, digest, InfoRequest(b)))
  {
    InfoRequestsApart(a, b);
    PathsApart(direc, digest, InfoRequest(a), InfoRequest(b));
    StoreKeepsOthers(files, direc, digest, InfoRequest(a), v, InfoRequest(b));
  }

  /** One entry of a model's file list. */
  datatype FileInfo = FileInfo(name: string, description: string)

  /** The parts of a model record that the survey reads. */
  datatype ModelInfo = ModelInfo(
    name: string,
    formatName: string,
    mainFiles: seq<FileInfo>,
    additional: Option<seq<FileInfo>>)

  /** What a request returns (and what the cache stores): the id list, a model record, or file content. */
  datatype Payload = Identifiers(ids: seq<string>) | Info(info: ModelInfo) | Content(text: string)

  datatype Failure =
    | Cache(error: CacheError)      // a cache miss in "reuse" mode
    | HttpError(request: string)    // an error status, or a body that does not decode
    | Malformed(request: string)    // the response is not of the expected kind

  /**
   * The outside world: `fetch` is `requests.get` with the status check and
   * the decoding (`None` for an error status or a body that does not
   * decode), `quote` is
   * `urllib.parse.quote_plus`, and the validators report on a file's text.
   */
  datatype Env = Env(
    fetch: string -> Option<Payload>,
    quote: string -> string,
    validateSbml: (string, bool) -> bool,
    validateSedml: string -> bool)

  datatype CacheConfig = CacheConfig(mode: string, direc: string, digest: string -> string)

  function ConfigOf(cache: RequestCache<Payload>): CacheConfig {
    CacheConfig(cache.mode, cache.direc, cache.digest)
  }

  /** An outcome together with the cache files afterwards. */
  datatype Fetched<T> = Fetched(result: Result<T, Failure>, files: map<string, Payload>)

  /** Every answer is kept: `get_model_info` and `download_file` store what the server sends. */
  predicate AnyPayload(p: Payload) {
    true
  }

  /** `response.json()['models']` succeeds only on an id list, before anything is stored. */
  predicate IsIdentifiers(p: Payload) {
    p.Identifiers?
  }

  /**
   * The read-through shared by the three request functions: `"reuse"` answers
   * from the cache, every other mode asks the server, and `"store"` also
   * records the answer under the request. `accept` is the decoding done
   * before the store: an answer it rejects is an error and is not stored.
   */
  function Respond(cfg: CacheConfig, files: map<string, Payload>, request: string, fetched: Option<Payload>,
                   accept: Payload -> bool): Fetched<Payload> {
    var path := PathOf(cfg.direc, cfg.digest, request);
    if cfg.mode == "reuse" then
      match Load(files, path)
      case Success(v) => Fetched(Success(v), files)
      case Failure(e) => Fetched(Failure(Cache(e)), files)
    else if fetched.None? then
      Fetched(Failure(HttpError(request)), files)
    else if !accept(fetched.value) then
      Fetched(Failure(Malformed(request)), files)
    else
      Fetched(Success(fetched.value), if cfg.mode == "store" then files[path := fetched.value] else files)
  }

  /**
   * In `"reuse"` mode the answer is the cached entry (a miss is an error),
   * whatever the server would say, and the cache is not written.
   */
  lemma ReuseReadsCache(cfg: CacheConfig, files: map<string, Payload>, request: string, f1: Option<Payload>, f2: Option<Payload>,
                         accept: Payload -> bool)
    requires cfg.mode == "reuse"
    ensures Respond(cfg, files, request, f1, accept) == Respond(cfg, files, request, f2, accept)
    ensures Respond(cfg, files, request, f1, accept).files == files
    ensures var path := PathOf(cfg.direc, cfg.digest, request);
      Respond(cfg, files, request, f1, accept).result ==
        if path in files then Success(files[path]) else Failure(Cache(CacheMiss(path)))
  {
  }

  /**
   * In `"store"` mode a fetched answer is written under the request, so a
   * later run in `"reuse"` mode gets the same answer back.
   */
  lemma StoreThenReuse(cfg: CacheConfig, files: map<string, Payload>, request: string, fetched: Option<Payload>,
                        later: Option<Payload>, accept: Payload -> bool)
    requires cfg.mode == "store" && fetched.Some? && accept(fetched.value)
    ensures var stored := Respond(cfg, files, request, fetched, accept);
      && stored.result == Success(fetched.value)
      && stored.files == files[PathOf(cfg.direc, cfg.digest, request) := fetched.value]
      && Respond(cfg.(mode := "reuse"), stored.files, request, later, accept).result == Success(fetched.value)
  {
  }

  /** In any mode but `"reuse"` and `"store"` the server is asked and the cache is left alone. */
  lemma OffLeavesCache(cfg: CacheConfig, files: map<string, Payload>, request: string, fetched: Option<Payload>,
                        accept: Payload -> bool)
    requires cfg.mode != "reuse" && cfg.mode != "store"
    ensures Respond(cfg, files, request, fetched, accept).files == files
    ensures Respond(cfg, files, request, fetched, accept).result ==
      if fetched.None? then Failure(HttpError(request))
      else if accept(fetched.value) then Success(fetched.value)
      else Failure(Malformed(request))
  {
  }

  /**
   * A failed read-through never writes the cache: a cache miss, an error
   * status and an answer the decoding rejects all come before the store.
   */
  lemma FailureLeavesCache(cfg: CacheConfig, files: map<string, Payload>, request: string, fetched: Option<Payload>,
                           accept: Payload -> bool)
    requires Respond(cfg, files, request, fetched, accept).result.Failure?
    ensures Respond(cfg, files, request, fetched, accept).files == files
  {
  }

  /** `get_model_identifiers()` */
  function ModelIdentifiersOf(cfg: CacheConfig, files: map<string, Payload>, env: Env): Fetched<seq<string>> {
    var request := IdentifiersRequest();
    var e := Respond(cfg, files, request, env.fetch(request), IsIdentifiers);
    match e.result
    case Failure(err) => Fetched(Failure(err), e.files)
    case Success(p) => if p.Identifiers? then Fetched(Success(p.ids), e.files) else Fetched(Failure(Malformed(request)), e.files)
  }

  /** `get_model_info(model_id)` */
  function ModelInfoOf(cfg: CacheConfig, files: map<string, Payload>, env: Env, modelId: string): Fetched<ModelInfo> {
    var request := InfoRequest(modelId);
    var e := Respond(cfg, files, request, env.fetch(request), AnyPayload);
    match e.result
    case Failure(err) => Fetched(Failure(err), e.files)
    case Success(p) => if p.Info? then Fetched(Success(p.info), e.files) else Fetched(Failure(Malformed(request)), e.files)
  }

  /** `download_file(model_id, filename, output_file)`: the content written to the output file. */
  function DownloadOf(cfg: CacheConfig, files: map<string, Payload>, env: Env, modelId: string, filename: string): Fetched<string> {
    var request := DownloadRequest(modelId, env.quote(filename));
    var e := Respond(cfg, files, request, env.fetch(request), AnyPayload);
    match e.result
    case Failure(err) => Fetched(Failure(err), e.files)
    case Success(p) => if p.Content? then Fetched(Success(p.text), e.files) else Fetched(Failure(Malformed(request)), e.files)
  }

  /**
   * `get_model_identifiers()` decodes the id list before it stores it, so a
   * failure of any kind leaves the cache as it was; in `"store"` mode a
   * success has stored exactly the id list under the request.
   */
  lemma IdentifiersFailureLeavesCache(cfg: CacheConfig, files: map<string, Payload>, env: Env)
    ensures var f := ModelIdentifiersOf(cfg, files, env);
      && (f.result.Failure? ==> f.files == files)
      && (cfg.mode == "store" && f.result.Success? ==>
            f.files == files[PathOf(cfg.direc, cfg.digest, IdentifiersRequest()) := Identifiers(f.result.value)])
  {
    var request := IdentifiersRequest();
    if Respond(cfg, files, request, env.fetch(request), IsIdentifiers).result.Failure? {
      FailureLeavesCache(cfg, files, request, env.fetch(request), IsIdentifiers);
    }
  }

  /** The request functions: the read-through of `Respond` on their own requests. */
  method ReadThrough(cache: RequestCache<Payload>, fetch: string -> Option<Payload>, request: string,
                     accept: Payload -> bool)
    returns (r: Result<Payload, Failure>)
    modifies cache.disk
    ensures Fetched(r, cache.disk.files) == Respond(ConfigOf(cache), old(cache.disk.files), request, fetch(request), accept)
  {
    if cache.mode == "reuse" {
      var entry := cache.GetEntry(request);
      if entry.Success? {
        return Success(entry.value);
      }
      return Failure(Cache(entry.error));
    }
    var response := fetch(request);
    if response.None? {
      return Failure(HttpError(request));
    }
    if !accept(response.value) {
      return Failure(Malformed(request));
    }
    if cache.mode == "store" {
      cache.SetEntry(request, response.value);
    }
    return Success(response.value);
  }

  method GetModelIdentifiers(cache: RequestCache<Payload>, env: Env) returns (r: Result<seq<string>, Failure>)
    modifies cache.disk
    ensures Fetched(r, cache.disk.files) == ModelIdentifiersOf(ConfigOf(cache), old(cache.disk.files), env)
  {
    var request := IdentifiersRequest();
    var response := ReadThrough(cache, env.fetch, request, IsIdentifiers);
    if response.Failure? {
      return Failure(response.error);
    }
    if !response.value.Identifiers? {
      return Failure(Malformed(request));
    }
    return Success(response.value.ids);
  }

  method GetModelInfo(cache: RequestCache<Payload>, env: Env, modelId: string) returns (r: Result<ModelInfo, Failure>)
    modifies cache.disk
    ensures Fetched(r, cache.disk.files) == ModelInfoOf(ConfigOf(cache), old(cache.disk.files), env, modelId)
  {
    var request := InfoRequest(modelId);
    var response := ReadThrough(cache, env.fetch, request, AnyPayload);
    if response.Failure? {
      return Failure(response.error);
    }
    if !response.value.Info? {
      return Failure(Malformed(request));
    }
    return Success(response.value.info);
  }

  method DownloadFile(cache: RequestCache<Payload>, env: Env, modelId: string, filename: string)
    returns (r: Result<string, Failure>)
    modifies cache.disk
    ensures Fetched(r, cache.disk.files) == DownloadOf(ConfigOf(cache), old(cache.disk.files), env, modelId, filename)
  {
    var request := DownloadRequest(modelId, env.quote(filename));
    var response := ReadThrough(cache, env.fetch, request, AnyPayload);
    if response.Failure? {
      return Failure(response.error);
    }
    if !response.value.Content? {
      return Failure(Malformed(request));
    }
    return Success(response.value.text);
  }

  // ---------------------------------------------------------------------
  // Repairing the SBML reference of a SED-ML file

  const ModelXmlRef := "source=\"model.xml\""

  function SourceRef(filename: string): string {
    "source=\"" + filename + "\""
  }

  datatype Rewrite = Rewrite(fixed: bool, text: string)

  /**
   * The rewrite in `replace_model_xml(sedml_path, sbml_filename)`: when the
   * SBML file is not itself called `model.xml` and the SED-ML text refers to
   * `source="model.xml"`, every such reference names the SBML file instead.
   */
  function ReplaceModelXml(text: string, sbmlFilename: string): Rewrite {
    if sbmlFilename == "model.xml" then Rewrite(false, text)
    else if !Contains(text, ModelXmlRef) then Rewrite(false, text)
    else Rewrite(true, ReplaceAll(text, ModelXmlRef, SourceRef(sbmlFilename)))
  }

  /**
   * The text is repaired exactly when the SBML file has another name and the
   * generic reference occurs; an unrepaired text is unchanged; a repaired one
   * is cut at the (non-overlapping) occurrences of the generic reference into
   * pieces free of it, and the same pieces are joined by the new reference.
   */
  lemma ReplaceModelXmlCases(text: string, sbmlFilename: string)
    ensures var rw := ReplaceModelXml(text, sbmlFilename);
      && (rw.fixed <==> sbmlFilename != "model.xml" && Contains(text, ModelXmlRef))
      && (!rw.fixed ==> rw.text == text)
      && (rw.fixed ==>
            var pieces := Split(text, ModelXmlRef);
            && text == Join(ModelXmlRef, pieces)
            && rw.text == Join(SourceRef(sbmlFilename), pieces)
            && forall i :: 0 <= i < |pieces| ==> !Contains(pieces[i], ModelXmlRef))
  {
    ReplaceAllPieces(text, ModelXmlRef, SourceRef(sbmlFilename));
  }

  // ---------------------------------------------------------------------
  // Choosing the models that yield a row

  /** An additional file whose `name|description`, upper-cased, matches `SED[-]?ML`. */
  predicate IsSedmlCandidate(f: FileInfo) {
    Search("SED[-]?ML", Upper(f.name + "|" + f.description))
  }

  /**
   * A file is a SED-ML candidate exactly when its upper-cased name or its
   * upper-cased description contains `SEDML` or `SED-ML`: no match runs
   * across the `|` that joins them.
   */
  lemma SedmlCandidateMeaning(f: FileInfo)
    ensures IsSedmlCandidate(f) <==>
      || Contains(Upper(f.name), "SEDML") || Contains(Upper(f.name), "SED-ML")
      || Contains(Upper(f.description), "SEDML") || Contains(Upper(f.description), "SED-ML")
  {
    UpperAppend(f.name + "|", f.description);
    UpperAppend(f.name, "|");
    assert Upper("|") == "|";
    SedmlAcrossJoiner(Upper(f.name), Upper(f.description));
    SedmlSearch(Upper(f.name));
    SedmlSearch(Upper(f.description));
  }

  /** The names of the SED-ML candidates, in their order in the file list. */
  function SedmlCandidates(files: seq<FileInfo>): seq<string>
    decreases |files|
  {
    if files == [] then []
    else
      var last := files[|files| - 1];
      SedmlCandidates(files[..|files| - 1]) + (if IsSedmlCandidate(last) then [last.name] else [])
  }

  /**
   * Candidates keep the order of the file list: the candidates of a
   * concatenation are those of the first part followed by those of the second.
   */
  lemma {:induction false} SedmlCandidatesAppend(a: seq<FileInfo>, b: seq<FileInfo>)
    ensures SedmlCandidates(a + b) == SedmlCandidates(a) + SedmlCandidates(b)
    decreases |b|
  {
    if b == [] {
      assert a + b == a;
    } else {
      var n := |b| - 1;
      assert (a + b)[..|a + b| - 1] == a + b[..n];
      assert (a + b)[|a + b| - 1] == b[n];
      SedmlCandidatesAppend(a, b[..n]);
    }
  }

  /** Every name listed is the name of a candidate file of the list, and there are no more names than files. */
  lemma {:induction false} SedmlCandidatesFrom(files: seq<FileInfo>)
    ensures |SedmlCandidates(files)| <= |files|
    ensures forall i :: 0 <= i < |SedmlCandidates(files)| ==>
      exists j :: 0 <= j < |files| && IsSedmlCandidate(files[j]) && files[j].name == SedmlCandidates(files)[i]
    decreases |files|
  {
    if files != [] {
      var n := |files| - 1;
      var rest := files[..n];
      SedmlCandidatesFrom(rest);
      var r := SedmlCandidates(files);
      assert r == SedmlCandidates(rest) + (if IsSedmlCandidate(files[n]) then [files[n].name] else []);
      forall i | 0 <= i < |r|
        ensures exists j :: 0 <= j < |files| && IsSedmlCandidate(files[j]) && files[j].name == r[i]
      {
        if i < |SedmlCandidates(rest)| {
          assert r[i] == SedmlCandidates(rest)[i];
          var j :| 0 <= j < |rest| && IsSedmlCandidate(rest[j]) && rest[j].name == SedmlCandidates(rest)[i];
          assert files[j] == rest[j];
        } else {
          assert files[n].name == r[i];
        }
      }
    }
  }

  /** The loop over `info['files']['additional']` that collects the SED-ML candidates. */
  method FindSedmlFiles(files: seq<FileInfo>) returns (names: seq<string>)
    ensures names == SedmlCandidates(files)
  {
    names := [];
    var i := 0;
    while i < |files|
      invariant 0 <= i <= |files|
      invariant names == SedmlCandidates(files[..i])
    {
      assert files[..i + 1][..i] == files[..i];
      if IsSedmlCandidate(files[i]) {
        names := names + [files[i].name];
      }
      i := i + 1;
    }
    assert files[..|files|] == files;
  }

  datatype Selection = Selected(sbmlFile: string, sedmlFile: string) | Skipped

  /**
   * The filters of the survey loop, in their order: a curated `BIOMD` id, the
   * SBML format, exactly one main file, a list of additional files, and
   * exactly one SED-ML candidate among them.
   */
  function Select(modelId: string, info: ModelInfo): (s: Selection)
    ensures s.Selected? <==>
      && Contains(modelId, "BIOMD")
      && info.formatName == "SBML"
      && |info.mainFiles| == 1
      && info.additional.Some?
      && |SedmlCandidates(info.additional.value)| == 1
    ensures s.Selected? ==>
      s.sbmlFile == info.mainFiles[0].name && [s.sedmlFile] == SedmlCandidates(info.additional.value)
  {
    if !Contains(modelId, "BIOMD") then Skipped
    else if info.formatName != "SBML" then Skipped
    else if |info.mainFiles| != 1 then Skipped
    else if info.additional.None? then Skipped
    else
      var candidates := SedmlCandidates(info.additional.value);
      if |candidates| != 1 then Skipped
      else Selected(info.mainFiles[0].name, candidates[0])
  }

  // ---------------------------------------------------------------------
  // The report table

  type Row = map<string, Cell>

  /**
   * The column declaration of the survey, `|`-separated: the labels (padded
   * with spaces, which the table strips) and the keys, which name the
   * variables a row is read from.
   */
  const ColumnLabels := Join("|", LabelFields)
  const ColumnKeys := Join("|", KeyList)

  /** The fields of the label declaration, before stripping. */
  const LabelFields: seq<string> := ["Model     ", "SBML     ", "SEDML     ", "broken-ref",
                                     "valid-sbml", "valid-sbml-units", "valid-sedml", "tellurium"]

  const KeyList: seq<string> := ["model_desc", "sbml_file", "sedml_file", "broken_ref",
                                 "valid_sbml", "valid_sbml_units", "valid_sedml", "tellurium_outcome"]
  const LabelList: seq<string> := ["Model", "SBML", "SEDML", "broken-ref",
                                   "valid-sbml", "valid-sbml-units", "valid-sedml", "tellurium"]

  /** The summary format of a counted column: `n_fail={count}`. */
  const FailFormat := "n_fail={count}"

  /** The columns whose failures are counted, in the order the counts are made. */
  const FailKeys: seq<string> := ["valid_sbml", "valid_sbml_units", "valid_sedml", "broken_ref"]

  /** The eight keys are distinct. */
  lemma KeysDistinct()
    ensures Distinct(KeyList)
  {
  }

  /** A name without `|` and without whitespace at either end is a single field with nothing to strip. */
  lemma PlainName(s: string)
    requires |s| > 0 && !IsSpace(s[0]) && !IsSpace(s[|s| - 1])
    ensures Strip(s) == s
  {
    StripTrimmed(s);
  }

  /** No key has a `|`. */
  lemma KeysWithoutBar()
    ensures forall i :: 0 <= i < |KeyList| ==> '|' !in KeyList[i]
  {
  }

  /** Every key is non-empty and starts and ends with a letter. */
  lemma KeysTrimmed()
    ensures forall i :: 0 <= i < |KeyList| ==>
      |KeyList[i]| > 0 && 'a' <= KeyList[i][0] <= 'z' && 'a' <= KeyList[i][|KeyList[i]| - 1] <= 'z'
  {
  }

  /** Each key is its own strip. */
  lemma KeysStripped()
    ensures forall i :: 0 <= i < |KeyList| ==> Strip(KeyList[i]) == KeyList[i]
  {
    KeysTrimmed();
    forall i | 0 <= i < |KeyList|
      ensures Strip(KeyList[i]) == KeyList[i]
    {
      PlainName(KeyList[i]);
    }
  }

  /** No key has a `|`, and each is its own strip. */
  lemma KeysPlain()
    ensures forall i :: 0 <= i < |KeyList| ==> '|' !in KeyList[i]
    ensures forall i :: 0 <= i < |KeyList| ==> Strip(KeyList[i]) == KeyList[i]
  {
    KeysWithoutBar();
    KeysStripped();
  }

  lemma LabelsSplit()
    ensures Split(ColumnLabels, "|") == LabelFields
  {
    assert forall i :: 0 <= i < |LabelFields| ==> '|' !in LabelFields[i];
    SplitJoinedCells(LabelFields, '|');
  }

  lemma KeysSplit()
    ensures Split(ColumnKeys, "|") == KeyList
  {
    KeysPlain();
    SplitJoinedCells(KeyList, '|');
  }

  function Spaces(n: nat): (r: string)
    ensures |r| == n && forall i :: 0 <= i < n ==> r[i] == ' '
  {
    seq(n, i => ' ')
  }

  /** A name padded with spaces on the right has exactly the padding as trailing whitespace. */
  lemma {:induction false} TrailingPadding(name: string, pad: nat)
    requires |name| > 0 && !IsSpace(name[|name| - 1])
    ensures TrailingSpaces(name + Spaces(pad)) == pad
    decreases pad
  {
    var s := name + Spaces(pad);
    if pad > 0 {
      assert s[..|s| - 1] == name + Spaces(pad - 1);
      TrailingPadding(name, pad - 1);
    } else {
      assert s == name;
    }
  }

  /** Stripping a padded name gives the name. */
  lemma StripPadded(name: string, pad: nat)
    requires |name| > 0 && !IsSpace(name[0]) && !IsSpace(name[|name| - 1])
    ensures Strip(name + Spaces(pad)) == name
  {
    var s := name + Spaces(pad);
    assert LeadingSpaces(s) == 0;
    assert s[0..] == s;
    TrailingPadding(name, pad);
    assert s[..|s| - pad] == name;
  }

  /** The first three labels are padded on the right; stripping removes the padding. */
  lemma PaddedLabelsStrip()
    ensures forall i :: 0 <= i < 3 ==> Strip(LabelFields[i]) == LabelList[i]
  {
    assert LabelFields[0] == "Model" + Spaces(5);
    assert LabelFields[1] == "SBML" + Spaces(5);
    assert LabelFields[2] == "SEDML" + Spaces(5);
    StripPadded("Model", 5);
    StripPadded("SBML", 5);
    StripPadded("SEDML", 5);
  }

  /** The other five labels have nothing to strip. */
  lemma PlainLabelsStrip()
    ensures forall i :: 3 <= i < 8 ==> Strip(LabelFields[i]) == LabelList[i]
  {
    PlainName("broken-ref");
    PlainName("valid-sbml");
    PlainName("valid-sbml-units");
    PlainName("valid-sedml");
    PlainName("tellurium");
  }

  /** The labels as the table holds them: the declared fields without their padding. */
  lemma LabelsParsed()
    ensures ParseNames(ColumnLabels, "|") == LabelList
  {
    LabelsSplit();
    PaddedLabelsStrip();
    PlainLabelsStrip();
    var names := ParseNames(ColumnLabels, "|");
    assert |names| == |LabelList|;
    forall i | 0 <= i < |names|
      ensures names[i] == LabelList[i]
    {
      assert names[i] == Strip(LabelFields[i]);
    }
  }

  /** The column declaration of the survey: eight labels and the eight keys. */
  lemma ColumnDeclaration()
    ensures |Split(ColumnLabels, "|")| == |Split(ColumnKeys, "|")| == 8
    ensures ParseNames(ColumnKeys, "|") == KeyList
  {
    LabelsSplit();
    KeysSplit();
    KeysPlain();
  }

  function ModelDesc(modelId: string, info: ModelInfo): string {
    "[" + modelId + "](" + ApiUrl + "/" + modelId + ")<br/><sup>" + info.name + "</sup>"
  }

  /** The row a kept model contributes: `append_row(locals())` reads these eight variables. */
  function MakeRow(modelId: string, info: ModelInfo, sbmlFile: string, sedmlFile: string,
                   brokenRef: bool, validSbml: bool, validSbmlUnits: bool, validSedml: bool): (row: Row)
    ensures WellFormedRow(row)
  {
    map[
      "model_desc" := Text(ModelDesc(modelId, info)),
      "sbml_file" := Text(sbmlFile),
      "sedml_file" := Text(sedmlFile),
      "broken_ref" := Flag(brokenRef),
      "valid_sbml" := Flag(validSbml),
      "valid_sbml_units" := Flag(validSbmlUnits),
      "valid_sedml" := Flag(validSedml),
      "tellurium_outcome" := Text("stub")
    ]
  }

  /** A row has a cell under every key, and a boolean under every counted key. */
  predicate WellFormedRow(row: Row) {
    && (forall k :: k in KeyList ==> k in row)
    && (forall k :: k in FailKeys ==> k in row && row[k].Flag?)
  }

  /**
   * Downloads the two files of a kept model, repairs the SED-ML reference and
   * runs the validators. Both files are written to the same directory, so
   * when they have the same name the SBML validator reads the SED-ML text.
   */
  function Assess(cfg: CacheConfig, files: map<string, Payload>, env: Env, modelId: string, info: ModelInfo,
                  sbmlFile: string, sedmlFile: string): Fetched<Row>
  {
    var sbml := DownloadOf(cfg, files, env, modelId, sbmlFile);
    if sbml.result.Failure? then Fetched(Failure(sbml.result.error), sbml.files)
    else
      var sedml := DownloadOf(cfg, sbml.files, env, modelId, sedmlFile);
      if sedml.result.Failure? then Fetched(Failure(sedml.result.error), sedml.files)
      else
        var rw := ReplaceModelXml(sedml.result.value, sbmlFile);
        var sbmlOnDisk := if sedmlFile == sbmlFile then rw.text else sbml.result.value;
        Fetched(Success(MakeRow(modelId, info, sbmlFile, sedmlFile, rw.fixed,
                                env.validateSbml(sbmlOnDisk, false), env.validateSbml(sbmlOnDisk, true),
                                env.validateSedml(rw.text))),
                sedml.files)
  }

  /** An assessed model's row names the model, its two files and `stub`. */
  lemma AssessRow(cfg: CacheConfig, files: map<string, Payload>, env: Env, modelId: string, info: ModelInfo,
                  sbmlFile: string, sedmlFile: string)
    requires Assess(cfg, files, env, modelId, info, sbmlFile, sedmlFile).result.Success?
    ensures var row := Assess(cfg, files, env, modelId, info, sbmlFile, sedmlFile).result.value;
      && row["model_desc"] == Text(ModelDesc(modelId, info))
      && row["sbml_file"] == Text(sbmlFile)
      && row["sedml_file"] == Text(sedmlFile)
      && row["tellurium_outcome"] == Text("stub")
  {
    var sbml := DownloadOf(cfg, files, env, modelId, sbmlFile);
    assert sbml.result.Success?;
    var sedml := DownloadOf(cfg, sbml.files, env, modelId, sedmlFile);
    assert sedml.result.Success?;
  }

  /** One pass of the survey loop for one model id: a row, no row, or an error. */
  function Step(cfg: CacheConfig, files: map<string, Payload>, env: Env, modelId: string): Fetched<Option<Row>> {
    if !Contains(modelId, "BIOMD") then Fetched(Success(None), files)
    else
      var fi := ModelInfoOf(cfg, files, env, modelId);
      if fi.result.Failure? then Fetched(Failure(fi.result.error), fi.files)
      else
        match Select(modelId, fi.result.value)
        case Skipped => Fetched(Success(None), fi.files)
        case Selected(sbmlFile, sedmlFile) =>
          var a := Assess(cfg, fi.files, env, modelId, fi.result.value, sbmlFile, sedmlFile);
          if a.result.Failure? then Fetched(Failure(a.result.error), a.files)
          else Fetched(Success(Some(a.result.value)), a.files)
  }

  /**
   * A model yields a row only when its record passes every filter, and the
   * row shows the model, its two files and `stub` for the engine outcome.
   */
  lemma StepRowOnlyIfSelected(cfg: CacheConfig, files: map<string, Payload>, env: Env, modelId: string)
    requires Step(cfg, files, env, modelId).result.Success?
    requires Step(cfg, files, env, modelId).result.value.Some?
    ensures var fi := ModelInfoOf(cfg, files, env, modelId);
      var row := Step(cfg, files, env, modelId).result.value.value;
      && Contains(modelId, "BIOMD")
      && fi.result.Success?
      && Select(modelId, fi.result.value).Selected?
      && row["model_desc"] == Text(ModelDesc(modelId, fi.result.value))
      && row["sbml_file"] == Text(fi.result.value.mainFiles[0].name)
      && [row["sedml_file"].s] == SedmlCandidates(fi.result.value.additional.value)
      && row["tellurium_outcome"] == Text("stub")
  {
    var fi := ModelInfoOf(cfg, files, env, modelId);
    assert Contains(modelId, "BIOMD") && fi.result.Success?;
    var sel := Select(modelId, fi.result.value);
    assert sel.Selected?;
    var a := Assess(cfg, fi.files, env, modelId, fi.result.value, sel.sbmlFile, sel.sedmlFile);
    assert a.result.Success? && Step(cfg, files, env, modelId).result.value.value == a.result.value;
    AssessRow(cfg, fi.files, env, modelId, fi.result.value, sel.sbmlFile, sel.sedmlFile);
  }

  /** `count` goes up before any filter, so at most `max_count` ids are looked at when it is positive. */
  function Examined(ids: seq<string>, maxCount: int): (r: seq<string>)
    ensures |r| <= |ids| && r == ids[..|r|]
    ensures maxCount > 0 ==> |r| == if maxCount < |ids| then maxCount else |ids|
    ensures maxCount <= 0 ==> r == ids
  {
    if maxCount > 0 && maxCount < |ids| then ids[..maxCount] else ids
  }

  function OptionSeq<T>(o: Option<T>): seq<T> {
    if o.Some? then [o.value] else []
  }

  /** What one pass of the survey loop does, given the cache files and the model id. */
  type Stepper = (map<string, Payload>, string) -> Fetched<Option<Row>>

  function StepOf(cfg: CacheConfig, env: Env): Stepper {
    (files: map<string, Payload>, modelId: string) => Step(cfg, files, env, modelId)
  }

  /**
   * The survey loop over a list of ids: the rows in id order, stopping at
   * the first error, with the cache files threaded through.
   */
  function Fold(step: Stepper, files: map<string, Payload>, ids: seq<string>): (f: Fetched<seq<Row>>)
    ensures f.result.Success? ==> |f.result.value| <= |ids|
    decreases |ids|
  {
    if ids == [] then Fetched(Success([]), files)
    else
      var prev := Fold(step, files, ids[..|ids| - 1]);
      if prev.result.Failure? then prev
      else
        var s := step(prev.files, ids[|ids| - 1]);
        if s.result.Failure? then Fetched(Failure(s.result.error), s.files)
        else Fetched(Success(prev.result.value + OptionSeq(s.result.value)), s.files)
  }

  function Survey(cfg: CacheConfig, files: map<string, Payload>, env: Env, ids: seq<string>): Fetched<seq<Row>> {
    Fold(StepOf(cfg, env), files, ids)
  }

  /** One more id: the loop's outcome so far extended by one step. */
  lemma FoldStep(step: Stepper, files: map<string, Payload>, ids: seq<string>, i: nat,
                 rows: seq<Row>, after: map<string, Payload>)
    requires i < |ids|
    requires Fold(step, files, ids[..i]) == Fetched(Success(rows), after)
    ensures var s := step(after, ids[i]);
      Fold(step, files, ids[..i + 1]) ==
        if s.result.Failure? then Fetched(Failure(s.result.error), s.files)
        else Fetched(Success(rows + OptionSeq(s.result.value)), s.files)
  {
    assert ids[..i + 1][..i] == ids[..i];
  }

  /** An error ends the loop: later ids change neither the outcome nor the cache. */
  lemma {:induction false} FoldStopsAtFailure(step: Stepper, files: map<string, Payload>, ids: seq<string>, i: nat)
    requires i <= |ids|
    requires Fold(step, files, ids[..i]).result.Failure?
    ensures Fold(step, files, ids) == Fold(step, files, ids[..i])
    decreases |ids|
  {
    if i < |ids| {
      var n := |ids| - 1;
      assert ids[..n][..i] == ids[..i];
      FoldStopsAtFailure(step, files, ids[..n], i);
    } else {
      assert ids[..i] == ids;
    }
  }

  /**
   * Rows appear in id order: the rows produced for a prefix of the ids are
   * a prefix of the rows produced for all of them.
   */
  lemma {:induction false} FoldRowsExtend(step: Stepper, files: map<string, Payload>, ids: seq<string>, i: nat)
    requires i <= |ids|
    requires Fold(step, files, ids).result.Success?
    ensures Fold(step, files, ids[..i]).result.Success?
    ensures var rows := Fold(step, files, ids).result.value;
      var early := Fold(step, files, ids[..i]).result.value;
      |early| <= |rows| && rows[..|early|] == early
    decreases |ids|
  {
    if i < |ids| {
      var n := |ids| - 1;
      assert ids[..n][..i] == ids[..i];
      FoldRowsExtend(step, files, ids[..n], i);
    } else {
      assert ids[..i] == ids;
    }
  }

  /** Steps that agree everywhere give the same survey. */
  lemma {:induction false} FoldSameSteps(s1: Stepper, s2: Stepper, files: map<string, Payload>, ids: seq<string>)
    requires forall f, id :: s1(f, id) == s2(f, id)
    ensures Fold(s1, files, ids) == Fold(s2, files, ids)
    decreases |ids|
  {
    if ids != [] {
      FoldSameSteps(s1, s2, files, ids[..|ids| - 1]);
    }
  }

  /** Steps that never write the cache give a survey that never writes it. */
  lemma {:induction false} FoldKeepsFiles(step: Stepper, files: map<string, Payload>, ids: seq<string>)
    requires forall f, id :: step(f, id).files == f
    ensures Fold(step, files, ids).files == files
    decreases |ids|
  {
    if ids != [] {
      FoldKeepsFiles(step, files, ids[..|ids| - 1]);
    }
  }

  /** Steps that only yield well-formed rows give a survey of well-formed rows. */
  lemma {:induction false} FoldRowsWellFormed(step: Stepper, files: map<string, Payload>, ids: seq<string>)
    requires forall f, id ::
      (step(f, id).result.Success? && step(f, id).result.value.Some? ==> WellFormedRow(step(f, id).result.value.value))
    ensures Fold(step, files, ids).result.Success? ==> RowsCover(Fold(step, files, ids).result.value)
    decreases |ids|
  {
    if ids != [] {
      FoldRowsWellFormed(step, files, ids[..|ids| - 1]);
    }
  }

  /** A model's record is read through the cache; in `"reuse"` mode that neither asks the server nor writes. */
  lemma ModelInfoReuse(cfg: CacheConfig, files: map<string, Payload>, env: Env, other: string -> Option<Payload>, modelId: string)
    requires cfg.mode == "reuse"
    ensures ModelInfoOf(cfg, files, env, modelId) == ModelInfoOf(cfg, files, env.(fetch := other), modelId)
    ensures ModelInfoOf(cfg, files, env, modelId).files == files
  {
  }

  lemma DownloadReuse(cfg: CacheConfig, files: map<string, Payload>, env: Env, other: string -> Option<Payload>,
                      modelId: string, filename: string)
    requires cfg.mode == "reuse"
    ensures DownloadOf(cfg, files, env, modelId, filename) == DownloadOf(cfg, files, env.(fetch := other), modelId, filename)
    ensures DownloadOf(cfg, files, env, modelId, filename).files == files
  {
  }

  lemma ModelInfoOff(cfg: CacheConfig, files: map<string, Payload>, env: Env, modelId: string)
    requires cfg.mode != "reuse" && cfg.mode != "store"
    ensures ModelInfoOf(cfg, files, env, modelId).files == files
  {
    OffLeavesCache(cfg, files, InfoRequest(modelId), env.fetch(InfoRequest(modelId)), AnyPayload);
  }

  lemma DownloadOff(cfg: CacheConfig, files: map<string, Payload>, env: Env, modelId: string, filename: string)
    requires cfg.mode != "reuse" && cfg.mode != "store"
    ensures DownloadOf(cfg, files, env, modelId, filename).files == files
  {
    var request := DownloadRequest(modelId, env.quote(filename));
    OffLeavesCache(cfg, files, request, env.fetch(request), AnyPayload);
  }

  /** In `"reuse"` mode one pass of the loop neither depends on the server nor writes the cache. */
  lemma StepReuse(cfg: CacheConfig, files: map<string, Payload>, env: Env, other: string -> Option<Payload>, modelId: string)
    requires cfg.mode == "reuse"
    ensures Step(cfg, files, env, modelId) == Step(cfg, files, env.(fetch := other), modelId)
    ensures Step(cfg, files, env, modelId).files == files
  {
    ModelInfoReuse(cfg, files, env, other, modelId);
    var fi := ModelInfoOf(cfg, files, env, modelId);
    if Contains(modelId, "BIOMD") && fi.result.Success? {
      var sel := Select(modelId, fi.result.value);
      if sel.Selected? {
        DownloadReuse(cfg, files, env, other, modelId, sel.sbmlFile);
        DownloadReuse(cfg, files, env, other, modelId, sel.sedmlFile);
      }
    }
  }

  /** With the cache off, one pass of the loop leaves the cache as it was. */
  lemma StepOff(cfg: CacheConfig, files: map<string, Payload>, env: Env, modelId: string)
    requires cfg.mode != "reuse" && cfg.mode != "store"
    ensures Step(cfg, files, env, modelId).files == files
  {
    ModelInfoOff(cfg, files, env, modelId);
    var fi := ModelInfoOf(cfg, files, env, modelId);
    if Contains(modelId, "BIOMD") && fi.result.Success? {
      var sel := Select(modelId, fi.result.value);
      if sel.Selected? {
        DownloadOff(cfg, files, env, modelId, sel.sbmlFile);
        DownloadOff(cfg, files, env, modelId, sel.sedmlFile);
      }
    }
  }

  /** Every row a pass of the loop yields has all the columns, with booleans where failures are counted. */
  lemma StepRowWellFormed(cfg: CacheConfig, files: map<string, Payload>, env: Env, modelId: string)
    ensures var s := Step(cfg, files, env, modelId);
      s.result.Success? && s.result.value.Some? ==> WellFormedRow(s.result.value.value)
  {
  }

  /** With the `"reuse"` cache the survey never depends on the server and never writes the cache. */
  lemma SurveyReuseIgnoresServer(cfg: CacheConfig, files: map<string, Payload>, env: Env,
                                 other: string -> Option<Payload>, ids: seq<string>)
    requires cfg.mode == "reuse"
    ensures Survey(cfg, files, env, ids) == Survey(cfg, files, env.(fetch := other), ids)
    ensures Survey(cfg, files, env, ids).files == files
  {
    forall f, id
      ensures StepOf(cfg, env)(f, id) == StepOf(cfg, env.(fetch := other))(f, id)
      ensures StepOf(cfg, env)(f, id).files == f
    {
      StepReuse(cfg, f, env, other, id);
    }
    FoldSameSteps(StepOf(cfg, env), StepOf(cfg, env.(fetch := other)), files, ids);
    FoldKeepsFiles(StepOf(cfg, env), files, ids);
  }

  /** With the cache off the survey leaves the cache as it was. */
  lemma SurveyOffKeepsCache(cfg: CacheConfig, files: map<string, Payload>, env: Env, ids: seq<string>)
    requires cfg.mode != "reuse" && cfg.mode != "store"
    ensures Survey(cfg, files, env, ids).files == files
  {
    forall f, id
      ensures StepOf(cfg, env)(f, id).files == f
    {
      StepOff(cfg, f, env, id);
    }
    FoldKeepsFiles(StepOf(cfg, env), files, ids);
  }

  /** Every surveyed row has all the columns, with booleans where failures are counted. */
  lemma SurveyRowsWellFormed(cfg: CacheConfig, files: map<string, Payload>, env: Env, ids: seq<string>)
    ensures Survey(cfg, files, env, ids).result.Success? ==> RowsCover(Survey(cfg, files, env, ids).result.value)
  {
    forall f, id
      ensures var s := StepOf(cfg, env)(f, id);
        s.result.Success? && s.result.value.Some? ==> WellFormedRow(s.result.value.value)
    {
      StepRowWellFormed(cfg, f, env, id);
    }
    FoldRowsWellFormed(StepOf(cfg, env), files, ids);
  }

  /** There are never more rows than examined ids, hence never more than `max_count` when it is positive. */
  lemma RowsBounded(cfg: CacheConfig, files: map<string, Payload>, env: Env, ids: seq<string>, maxCount: int)
    requires Survey(cfg, files, env, Examined(ids, maxCount)).result.Success?
    ensures var rows := Survey(cfg, files, env, Examined(ids, maxCount)).result.value;
      |rows| <= |ids| && (maxCount > 0 ==> |rows| <= maxCount)
  {
  }

  // ---------------------------------------------------------------------
  // The columns, the summary and the written report

  predicate RowsCover(rows: seq<Row>) {
    forall i :: 0 <= i < |rows| ==> WellFormedRow(rows[i])
  }

  /** The table's columns after appending `rows` to empty columns. */
  function Columns(rows: seq<Row>): (data: map<string, seq<Cell>>)
    requires RowsCover(rows)
    ensures data.Keys == KeySet(KeyList)
    ensures forall k :: k in data ==> |data[k]| == |rows|
  {
    map k | k in KeySet(KeyList) :: seq(|rows|, i requires 0 <= i < |rows| => rows[i][k])
  }

  /** Column `k` lists the rows' cells under `k`, in row order. */
  lemma ColumnCells(rows: seq<Row>, k: string, i: int)
    requires RowsCover(rows) && k in KeyList && 0 <= i < |rows|
    ensures Columns(rows)[k][i] == rows[i][k]
  {
  }

  /** Appending one more row appends its cell to every column. */
  lemma ColumnsSnoc(rows: seq<Row>, row: Row)
    requires RowsCover(rows) && WellFormedRow(row)
    ensures RowsCover(rows + [row])
    ensures Columns(rows + [row]) == map k | k in Columns(rows) :: Columns(rows)[k] + [row[k]]
  {
    var all := rows + [row];
    assert RowsCover(all) by {
      assert forall i :: 0 <= i < |rows| ==> all[i] == rows[i];
    }
    var lhs := Columns(all);
    var rhs := map k | k in Columns(rows) :: Columns(rows)[k] + [row[k]];
    forall k | k in lhs
      ensures lhs[k] == rhs[k]
    {
      assert forall i :: 0 <= i < |rows| ==> lhs[k][i] == rows[i][k] == Columns(rows)[k][i];
    }
  }

  datatype Tallied = Tallied(data: map<string, seq<Cell>>, summary: map<string, Cell>)

  /**
   * The failure counts, key after key: the count of `False` cells of a column
   * goes to its summary cell, then the column becomes `pass`/`FAIL`.
   */
  function Tally(data: map<string, seq<Cell>>, summary: map<string, Cell>, ks: seq<string>): (t: Tallied)
    requires forall k :: k in ks ==> k in data
    ensures t.data.Keys == data.Keys && forall k :: k in data ==> |t.data[k]| == |data[k]|
    ensures summary.Keys <= t.summary.Keys
    decreases |ks|
  {
    if ks == [] then Tallied(data, summary)
    else
      var prev := Tally(data, summary, ks[..|ks| - 1]);
      var k := ks[|ks| - 1];
      Tallied(prev.data[k := MapCells(prev.data[k], PassFail)],
              prev.summary[k := Text(FormatCount(FailFormat, CountWhere(prev.data[k], IsFalse)))])
  }

  /** For a column of booleans, the `FAIL` cells after the transform are its `False` cells before. */
  lemma {:induction false} FailsAreFalses(cells: seq<Cell>)
    requires forall i :: 0 <= i < |cells| ==> cells[i].Flag?
    ensures CountWhere(MapCells(cells, PassFail), IsFailText) == CountWhere(cells, IsFalse)
    decreases |cells|
  {
    if cells != [] {
      var n := |cells| - 1;
      assert MapCells(cells, PassFail)[..n] == MapCells(cells[..n], PassFail);
      FailsAreFalses(cells[..n]);
    }
  }

  /** The failure-count format gives `n_fail=` and the decimal count. */
  lemma NFailFormat(n: nat)
    ensures FormatCount(FailFormat, n) == "n_fail=" + NatToString(n)
  {
    assert FailFormat == "n_fail=" + "{count}";
    FormatCountSuffix("n_fail=", n);
  }

  /**
   * Column `k` after the counts: `pass`/`FAIL` of its old cells, with the
   * summary cell `n_fail=` and the number of `False` cells it had, which is
   * the number of `FAIL` cells it has.
   */
  predicate CountedColumn(data: map<string, seq<Cell>>, t: Tallied, k: string)
    requires k in data && k in t.data
  {
    && t.data[k] == MapCells(data[k], PassFail)
    && k in t.summary
    && t.summary[k] == Text("n_fail=" + NatToString(CountWhere(data[k], IsFalse)))
    && CountWhere(t.data[k], IsFailText) == CountWhere(data[k], IsFalse)
  }

  predicate BooleanColumn(cells: seq<Cell>) {
    forall i :: 0 <= i < |cells| ==> cells[i].Flag?
  }

  /**
   * With distinct counted keys over boolean columns, each counted column ends
   * as `pass`/`FAIL` of its old cells with its failure count in the summary,
   * and every other column and summary cell is unchanged.
   */
  lemma {:induction false} TallyCounts(data: map<string, seq<Cell>>, summary: map<string, Cell>, ks: seq<string>)
    requires forall k :: k in ks ==> k in data && BooleanColumn(data[k])
    requires Distinct(ks)
    ensures var t := Tally(data, summary, ks);
      && (forall k :: k in ks ==> CountedColumn(data, t, k))
      && (forall k :: k in data && k !in ks ==> t.data[k] == data[k])
      && (forall k :: k in summary && k !in ks ==> t.summary[k] == summary[k])
    decreases |ks|
  {
    if ks != [] {
      var n := |ks| - 1;
      var rest := ks[..n];
      var k := ks[n];
      assert Distinct(rest);
      assert k !in rest;
      assert forall j :: j in rest ==> j in ks;
      TallyCounts(data, summary, rest);
      var prev := Tally(data, summary, rest);
      var t := Tally(data, summary, ks);
      assert prev.data[k] == data[k];
      var count := CountWhere(data[k], IsFalse);
      FailsAreFalses(data[k]);
      NFailFormat(count);
      assert t.data == prev.data[k := MapCells(data[k], PassFail)];
      assert t.summary == prev.summary[k := Text("n_fail=" + NatToString(count))];
      assert CountedColumn(data, t, k);
      forall j | j in ks
        ensures CountedColumn(data, t, j)
      {
        if j != k {
          assert j in rest;
          assert CountedColumn(data, prev, j);
        }
      }
    }
  }

  /** The summary row after the survey: `n=` and the number of rows under `model_desc`. */
  function RowCountSummary(n: nat): map<string, Cell> {
    BlankSummary(KeyList)["model_desc" := Text("n=" + NatToString(n))]
  }

  /** The table after the end-of-run sequence: the row count, then the failure counts and transforms. */
  function Finished(rows: seq<Row>): (t: Tallied)
    requires RowsCover(rows)
    ensures HasRows(KeyList, t.data, |rows|) && SummaryCovers(KeyList, Some(t.summary))
  {
    Tally(Columns(rows), RowCountSummary(|rows|), FailKeys)
  }

  /** The text written to README.md for the surveyed rows. */
  function ReportText(rows: seq<Row>): string
    requires RowsCover(rows)
  {
    var t := Finished(rows);
    Render(LabelList, KeyList, t.data, Some(t.summary), |rows|, "|", "\n")
  }

  /**
   * After the end-of-run sequence the summary reads `n=` and the number of
   * rows for the models, and each counted column holds `pass`/`FAIL` with
   * `n_fail=` and the number of its `False` results in the summary, which is
   * the number of its `FAIL` cells.
   */
  lemma FinishedCounts(rows: seq<Row>)
    requires RowsCover(rows)
    ensures var t := Finished(rows);
      && t.summary["model_desc"] == Text("n=" + NatToString(|rows|))
      && forall k :: k in FailKeys ==> CountedColumn(Columns(rows), t, k)
  {
    CountedColumnsBoolean(rows);
    FailKeysDistinct();
    TallyCounts(Columns(rows), RowCountSummary(|rows|), FailKeys);
    ModelDescNotCounted();
  }

  /** The surveyed rows give boolean columns under the counted keys. */
  lemma CountedColumnsBoolean(rows: seq<Row>)
    requires RowsCover(rows)
    ensures forall k :: k in FailKeys ==> k in Columns(rows) && BooleanColumn(Columns(rows)[k])
  {
    var data: map<string, seq<Cell>> := Columns(rows);
    forall k: string | k in FailKeys
      ensures BooleanColumn(data[k])
    {
      forall i: int | 0 <= i < |data[k]|
        ensures data[k][i].Flag?
      {
        ColumnCells(rows, k, i);
      }
    }
  }

  lemma FailKeysDistinct()
    ensures Distinct(FailKeys)
  {
  }

  lemma ModelDescNotCounted()
    ensures "model_desc" !in FailKeys
  {
    assert forall j :: 0 <= j < |FailKeys| ==> FailKeys[j][0] != 'm';
  }

  /** The whole run: the id list, the survey of the examined ids, and the report. */
  function Report(cfg: CacheConfig, files: map<string, Payload>, env: Env, maxCount: int): Fetched<string> {
    var ids := ModelIdentifiersOf(cfg, files, env);
    if ids.result.Failure? then Fetched(Failure(ids.result.error), ids.files)
    else
      var s := Survey(cfg, ids.files, env, Examined(ids.result.value, maxCount));
      if s.result.Failure? then Fetched(Failure(s.result.error), s.files)
      else
        SurveyRowsWellFormed(cfg, ids.files, env, Examined(ids.result.value, maxCount));
        Fetched(Success(ReportText(s.result.value)), s.files)
  }

  // ---------------------------------------------------------------------
  // The survey run

  /**
   * The body of the survey loop for one model id, from the `BIOMD` filter to
   * the row: the filters in order, the downloads, the repair and the
   * validators.
   */
  method ProcessModel(cache: RequestCache<Payload>, env: Env, modelId: string) returns (r: Result<Option<Row>, Failure>)
    modifies cache.disk
    ensures Fetched(r, cache.disk.files) == Step(ConfigOf(cache), old(cache.disk.files), env, modelId)
  {
    if !Contains(modelId, "BIOMD") {
      return Success(None);
    }
    var info := GetModelInfo(cache, env, modelId);
    if info.Failure? {
      return Failure(info.error);
    }
    var record := info.value;
    if record.formatName != "SBML" {
      return Success(None);
    }
    if |record.mainFiles| != 1 {
      return Success(None);
    }
    var sbmlFile := record.mainFiles[0].name;
    if record.additional.None? {
      return Success(None);
    }
    var candidates := FindSedmlFiles(record.additional.value);
    if |candidates| != 1 {
      return Success(None);
    }
    var sedmlFile := candidates[0];
    var sbmlText := DownloadFile(cache, env, modelId, sbmlFile);
    if sbmlText.Failure? {
      return Failure(sbmlText.error);
    }
    var sedmlText := DownloadFile(cache, env, modelId, sedmlFile);
    if sedmlText.Failure? {
      return Failure(sedmlText.error);
    }
    var rw := ReplaceModelXml(sedmlText.value, sbmlFile);
    var sbmlOnDisk := if sedmlFile == sbmlFile then rw.text else sbmlText.value;
    var validSbml := env.validateSbml(sbmlOnDisk, false);
    var validSbmlUnits := env.validateSbml(sbmlOnDisk, true);
    var validSedml := env.validateSedml(rw.text);
    return Success(Some(MakeRow(modelId, record, sbmlFile, sedmlFile, rw.fixed, validSbml, validSbmlUnits, validSedml)));
  }

  /** One more counted key: the tally so far followed by that key's count and transform. */
  lemma TallyNext(data: map<string, seq<Cell>>, summary: map<string, Cell>, ks: seq<string>, j: nat)
    requires j < |ks| && forall k :: k in ks ==> k in data
    ensures forall k :: k in ks[..j] ==> k in data
    ensures var prev := Tally(data, summary, ks[..j]);
      var k := ks[j];
      Tally(data, summary, ks[..j + 1]) ==
        Tallied(prev.data[k := MapCells(prev.data[k], PassFail)],
                prev.summary[k := Text(FormatCount(FailFormat, CountWhere(prev.data[k], IsFalse)))])
  {
    assert ks[..j + 1][..j] == ks[..j];
  }

  /** The counted keys are declared keys. */
  lemma FailKeysDeclared()
    ensures forall k :: k in FailKeys ==> k in KeyList
  {
    assert FailKeys == [KeyList[4], KeyList[5], KeyList[6], KeyList[3]];
  }

  /**
   * The end-of-run sequence: the row count in the `model_desc` summary cell,
   * then for each counted key its `False` count and its `pass`/`FAIL` transform.
   */
  method Summarise(table: MarkdownTable, ghost rows: seq<Row>)
    requires table.Valid() && table.keys == KeyList && table.summary == None
    requires RowsCover(rows) && table.data == Columns(rows)
    modifies table
    ensures table.Valid() && table.labels == old(table.labels) && table.keys == KeyList
    ensures table.data == Finished(rows).data && table.summary == Some(Finished(rows).summary)
  {
    var n := table.NRows();
    table.AddSummary("model_desc", Text("n=" + NatToString(n)));
    ghost var data0 := Columns(rows);
    ghost var summary0 := RowCountSummary(|rows|);
    assert table.summary == Some(summary0);
    FailKeysDeclared();
    assert FailKeys[..0] == [];
    var j := 0;
    while j < |FailKeys|
      invariant 0 <= j <= |FailKeys|
      invariant table.Valid() && table.labels == old(table.labels) && table.keys == KeyList
      invariant table.data == Tally(data0, summary0, FailKeys[..j]).data
      invariant table.summary == Some(Tally(data0, summary0, FailKeys[..j]).summary)
    {
      var key := FailKeys[j];
      TallyNext(data0, summary0, FailKeys, j);
      ghost var prev := Tally(data0, summary0, FailKeys[..j]);
      ghost var countCell := Text(FormatCount(FailFormat, CountWhere(prev.data[key], IsFalse)));
      assert key in prev.data && table.summary == Some(prev.summary);
      var counted := table.AddCount(key, IsFalse, FailFormat);
      assert table.summary == Some(prev.summary[key := countCell]);
      var transformed := table.TransformColumn(key, PassFail);
      j := j + 1;
    }
    assert FailKeys[..|FailKeys|] == FailKeys;
  }

  /** The loop's outcome after one more id, from the outcome so far and that id's step. */
  lemma SurveyAdvance(cfg: CacheConfig, files0: map<string, Payload>, env: Env, ids: seq<string>, i: nat,
                      rows: seq<Row>, before: map<string, Payload>, r: Result<Option<Row>, Failure>,
                      after: map<string, Payload>)
    requires i < |ids|
    requires Survey(cfg, files0, env, ids[..i]) == Fetched(Success(rows), before)
    requires Fetched(r, after) == Step(cfg, before, env, ids[i])
    ensures r.Failure? ==> Survey(cfg, files0, env, ids[..i + 1]) == Fetched(Failure(r.error), after)
    ensures r.Success? ==> Survey(cfg, files0, env, ids[..i + 1]) == Fetched(Success(rows + OptionSeq(r.value)), after)
  {
    FoldStep(StepOf(cfg, env), files0, ids, i, rows, before);
  }

  /** Once the loop has failed on the first `i` ids, the run over the examined ids has the same outcome. */
  lemma SurveyStops(cfg: CacheConfig, files0: map<string, Payload>, env: Env, ids: seq<string>, maxCount: int, i: nat)
    requires i <= |ids| && (maxCount > 0 ==> i <= maxCount)
    requires Survey(cfg, files0, env, ids[..i]).result.Failure?
    ensures Survey(cfg, files0, env, Examined(ids, maxCount)) == Survey(cfg, files0, env, ids[..i])
  {
    var examined := Examined(ids, maxCount);
    assert examined[..i] == ids[..i];
    FoldStopsAtFailure(StepOf(cfg, env), files0, examined, i);
  }

  /** Empty rows give empty columns. */
  lemma ColumnsEmpty()
    ensures RowsCover([]) && Columns([]) == map k | k in KeyList :: []
  {
  }

  /**
   * The survey loop of `main()`: `count` goes up for every id looked at,
   * before any filter, and the loop ends after `max_count` ids when that is
   * positive; each kept model appends its row. An error ends the run.
   */
  method RunSurvey(cache: RequestCache<Payload>, env: Env, table: MarkdownTable, modelIds: seq<string>, maxCount: int)
    returns (failure: Option<Failure>, ghost rows: seq<Row>)
    requires table.Valid() && table.labels == LabelList && table.keys == KeyList && table.summary == None
    requires table.data == map k | k in KeyList :: []
    modifies cache.disk, table
    ensures var s := Survey(ConfigOf(cache), old(cache.disk.files), env, Examined(modelIds, maxCount));
      && s.files == cache.disk.files
      && (failure.Some? ==> s.result == Failure(failure.value))
      && (failure.None? ==> s.result == Success(rows) && RowsCover(rows))
    ensures failure.None? ==>
      (table.Valid() && table.labels == LabelList && table.keys == KeyList
       && table.summary == None && table.data == Columns(rows))
  {
    ghost var cfg := ConfigOf(cache);
    ghost var files0 := cache.disk.files;
    rows := [];
    ColumnsEmpty();
    KeysDistinct();
    assert modelIds[..0] == [];
    var count := 0;
    var i := 0;
    while i < |modelIds|
      invariant 0 <= i <= |modelIds| && count == i
      invariant maxCount > 0 ==> i <= maxCount
      invariant table.Valid() && table.labels == LabelList && table.keys == KeyList && table.summary == None
      invariant RowsCover(rows) && table.data == Columns(rows)
      invariant Survey(cfg, files0, env, modelIds[..i]) == Fetched(Success(rows), cache.disk.files)
    {
      if maxCount > 0 && count >= maxCount {
        break;
      }
      count := count + 1;
      ghost var before := cache.disk.files;
      var step := ProcessModel(cache, env, modelIds[i]);
      StepRowWellFormed(cfg, before, env, modelIds[i]);
      SurveyAdvance(cfg, files0, env, modelIds, i, rows, before, step, cache.disk.files);
      if step.Failure? {
        SurveyStops(cfg, files0, env, modelIds, maxCount, i + 1);
        return Some(step.error), rows;
      }
      ghost var grown := rows + OptionSeq(step.value);
      if step.value.Some? {
        ColumnsSnoc(rows, step.value.value);
        table.AppendRow(step.value.value);
        assert grown == rows + [step.value.value];
      } else {
        assert grown == rows;
      }
      rows := grown;
      i := i + 1;
    }
    assert Examined(modelIds, maxCount) == modelIds[..i];
    failure := None;
  }

  /**
   * `main()`: declares the table, fetches the model ids, runs the survey loop
   * over at most `max_count` of them (all when it is not positive), then the
   * end-of-run sequence, and gives the text written to README.md.
   */
  method SurveyBioModels(cache: RequestCache<Payload>, env: Env, maxCount: int) returns (r: Result<string, Failure>)
    modifies cache.disk
    ensures Fetched(r, cache.disk.files) == Report(ConfigOf(cache), old(cache.disk.files), env, maxCount)
  {
    ColumnDeclaration();
    var table := new MarkdownTable(ColumnLabels, ColumnKeys);
    LabelsParsed();
    KeysDistinct();
    var ids := GetModelIdentifiers(cache, env);
    if ids.Failure? {
      return Failure(ids.error);
    }
    var failure, rows := RunSurvey(cache, env, table, ids.value, maxCount);
    if failure.Some? {
      return Failure(failure.value);
    }
    Summarise(table, rows);
    assert table.NRows() == |rows|;
    var text := table.Write();
    return Success(text);
  }
}
