/** One flat TrialRecord per registry study, extracted from the nested study
    object exactly as the fetcher's chain of `.get` calls does. */
module Trials {
  import opened PyValues

  /** A table row: NCT_ID, Title, Status, Phase, Sponsor, Enrollment,
      StartDate and CompletionDate. `JNull` is a null cell. */
  datatype TrialRecord = TrialRecord(
    nctId: Json,
    title: Json,
    status: Json,
    phase: Json,
    sponsor: Json,
    enrollment: Json,
    startDate: Json,
    completionDate: Json)

  const NullRecord := TrialRecord(JNull, JNull, JNull, JNull, JNull, JNull, JNull, JNull)

  // The registry paths that feed each column.
  const NctIdPath: seq<string> := ["protocolSection", "identificationModule", "nctId"]
  const TitlePath: seq<string> := ["protocolSection", "identificationModule", "briefTitle"]
  const StatusPath: seq<string> := ["protocolSection", "statusModule", "overallStatus"]
  const PhasesPath: seq<string> := ["protocolSection", "designModule", "phaseList", "phases"]
  const SponsorPath: seq<string> := ["protocolSection", "sponsorCollaboratorsModule", "leadSponsor", "name"]
  const EnrollmentPath: seq<string> := ["protocolSection", "designModule", "enrollmentInfo", "value"]
  const StartDatePath: seq<string> := ["protocolSection", "statusModule", "startDateStruct", "date"]
  const CompletionDatePath: seq<string> := ["protocolSection", "statusModule", "completionDateStruct", "date"]
  const DesignModulePath: seq<string> := ["protocolSection", "designModule"]

  /** The body of the per-study loop: first the module lookups, each `.get`
      with a `{}` default; a `.get` on something that is not a dict raises
      AttributeError, so a study that is not an object raises at once. */
  function ExtractStudy(s: Json): (r: Result<TrialRecord, PyError>)
    ensures !s.JObj? ==> r == Err(AttributeError)
  {
    var protocol :- Get(s, "protocolSection", EmptyObject);
    var idInfo :- Get(protocol, "identificationModule", EmptyObject);
    var statusModule :- Get(protocol, "statusModule", EmptyObject);
    var sponsorModule :- Get(protocol, "sponsorCollaboratorsModule", EmptyObject);
    var designModule :- Get(protocol, "designModule", EmptyObject);
    var enrollmentInfo :- Get(designModule, "enrollmentInfo", EmptyObject);
    BuildRecord(idInfo, statusModule, sponsorModule, designModule, enrollmentInfo)
  }

  /** The record literal, its fields evaluated left to right; `phases[0]`
      raises IndexError on an empty phase list. A row needs every module to
      be an object. */
  function BuildRecord(idInfo: Json, statusModule: Json, sponsorModule: Json, designModule: Json,
                       enrollmentInfo: Json): (r: Result<TrialRecord, PyError>)
    ensures r.Ok? ==> idInfo.JObj? && statusModule.JObj? && sponsorModule.JObj? && designModule.JObj? && enrollmentInfo.JObj?
  {
    var nctId :- Get(idInfo, "nctId", JNull);
    var title :- Get(idInfo, "briefTitle", JNull);
    var status :- Get(statusModule, "overallStatus", JNull);
    var phase :- PhaseOf(designModule);
    var sponsor :- GetNested(sponsorModule, "leadSponsor", "name");
    var enrollment :- Get(enrollmentInfo, "value", JNull);
    var startDate :- GetNested(statusModule, "startDateStruct", "date");
    var completionDate :- GetNested(statusModule, "completionDateStruct", "date");
    Ok(TrialRecord(nctId, title, status, phase, sponsor, enrollment, startDate, completionDate))
  }

  /** `m.get(sub, {}).get(leaf)` */
  function GetNested(m: Json, sub: string, leaf: string): Result<Json, PyError>
  {
    var inner :- Get(m, sub, EmptyObject);
    Get(inner, leaf, JNull)
  }

  /** `design.get("phaseList", {}).get("phases", [None])[0]` */
  function PhaseOf(design: Json): Result<Json, PyError>
  {
    var phaseList :- Get(design, "phaseList", EmptyObject);
    var phases :- Get(phaseList, "phases", JArr([JNull]));
    First(phases)
  }

  /** A column value by path: null when any key on the way is absent. */
  function ValueAt(s: Json, path: seq<string>): Result<Json, PyError>
  {
    var found :- Navigate(s, path);
    Ok(match found case None => JNull case Some(v) => v)
  }

  /** Phase by path: null when the phase list is absent, else its first element. */
  function PhaseAt(s: Json): Result<Json, PyError>
  {
    var found :- Navigate(s, PhasesPath);
    match found
    case None => Ok(JNull)
    case Some(phases) => First(phases)
  }

  /** Reference extraction: every column is an explicit null-propagating path
      lookup, taken in the order the record lists its columns. */
  function ExtractByPaths(s: Json): Result<TrialRecord, PyError>
  {
    var nctId :- ValueAt(s, NctIdPath);
    var title :- ValueAt(s, TitlePath);
    var status :- ValueAt(s, StatusPath);
    var phase :- PhaseAt(s);
    var sponsor :- ValueAt(s, SponsorPath);
    var enrollment :- ValueAt(s, EnrollmentPath);
    var startDate :- ValueAt(s, StartDatePath);
    var completionDate :- ValueAt(s, CompletionDatePath);
    Ok(TrialRecord(nctId, title, status, phase, sponsor, enrollment, startDate, completionDate))
  }

  /** `s.get("protocolSection", {})`: the value `Get(s, "protocolSection", EmptyObject)`
      returns when `s` is an object. */
  function ProtocolOf(s: Json): Json
    requires s.JObj?
  {
    if "protocolSection" in s.fields then s.fields["protocolSection"] else EmptyObject
  }

  /** `protocol.get(section, {})`: the value `Get(ProtocolOf(s), section, EmptyObject)`
      returns when the protocol section is an object. */
  function ModuleOf(s: Json, section: string): Json
    requires s.JObj? && ProtocolOf(s).JObj?
  {
    var protocol := ProtocolOf(s).fields;
    if section in protocol then protocol[section] else EmptyObject
  }

  /** A one-key `get` with a `None` default is a path lookup of length one. */
  lemma ValueAtOne(j: Json, leaf: string)
    ensures ValueAt(j, [leaf]) == Get(j, leaf, JNull)
  {
    assert [leaf][1..] == [];
    match j
    case JObj(m) =>
      if leaf in m {
        assert Navigate(j, [leaf]) == Navigate(m[leaf], []) == Ok(Some(m[leaf]));
      } else {
        assert Navigate(j, [leaf]) == Ok(None);
      }
    case _ =>
  }

  /** One step of a path lookup is a `get` with a `{}` default. */
  lemma ValueAtStep(j: Json, key: string, rest: seq<string>)
    requires rest != []
    ensures ValueAt(j, [key] + rest) == (var inner :- Get(j, key, EmptyObject); ValueAt(inner, rest))
  {
    assert ([key] + rest)[0] == key;
    assert ([key] + rest)[1..] == rest;
    match j
    case JObj(m) =>
      if key !in m {
        assert Navigate(EmptyObject, rest) == Ok(None);
      }
    case _ =>
  }

  /** Looking up `section.leaf` below the protocol section. */
  lemma ValueAtModule(s: Json, section: string, leaf: string)
    requires s.JObj? && ProtocolOf(s).JObj?
    ensures ValueAt(s, ["protocolSection", section, leaf]) == Get(ModuleOf(s, section), leaf, JNull)
  {
    assert ["protocolSection", section, leaf] == ["protocolSection"] + [section, leaf];
    ValueAtStep(s, "protocolSection", [section, leaf]);
    assert [section, leaf] == [section] + [leaf];
    ValueAtStep(ProtocolOf(s), section, [leaf]);
    ValueAtOne(ModuleOf(s, section), leaf);
  }

  /** Looking up `section.sub.leaf` below the protocol section. */
  lemma ValueAtSub(s: Json, section: string, sub: string, leaf: string)
    requires s.JObj? && ProtocolOf(s).JObj?
    ensures ValueAt(s, ["protocolSection", section, sub, leaf]) == GetNested(ModuleOf(s, section), sub, leaf)
  {
    assert ["protocolSection", section, sub, leaf] == ["protocolSection"] + [section, sub, leaf];
    ValueAtStep(s, "protocolSection", [section, sub, leaf]);
    assert [section, sub, leaf] == [section] + [sub, leaf];
    ValueAtStep(ProtocolOf(s), section, [sub, leaf]);
    assert [sub, leaf] == [sub] + [leaf];
    ValueAtStep(ModuleOf(s, section), sub, [leaf]);
    var inner := Get(ModuleOf(s, section), sub, EmptyObject);
    if inner.Ok? {
      ValueAtOne(inner.value, leaf);
    }
  }

  /** The phase lookup below the design module, with the `[None]` default. */
  lemma PhaseAtModule(s: Json)
    requires s.JObj? && ProtocolOf(s).JObj?
    ensures PhaseAt(s) == PhaseOf(ModuleOf(s, "designModule"))
  {
    NavigateAppend(s, ["protocolSection", "designModule"], ["phaseList", "phases"]);
    assert ["protocolSection", "designModule"] + ["phaseList", "phases"] == PhasesPath;
    assert ["protocolSection", "designModule"][1..] == ["designModule"];
    assert ["designModule"][1..] == [];
    assert ["phaseList", "phases"][1..] == ["phases"];
    assert ["phases"][1..] == [];
  }

  /** The `.get` chain is exactly a set of independent path lookups: same
      record, and the same exception when one is raised. */
  lemma ExtractStudyFollowsPaths(s: Json)
    ensures ExtractStudy(s) == ExtractByPaths(s)
  {
    if !s.JObj? {
      assert ExtractByPaths(s) == Err(AttributeError);
    } else if !ProtocolOf(s).JObj? {
      assert NctIdPath == ["protocolSection"] + ["identificationModule", "nctId"];
      ValueAtStep(s, "protocolSection", ["identificationModule", "nctId"]);
      assert ["identificationModule", "nctId"] == ["identificationModule"] + ["nctId"];
      ValueAtStep(ProtocolOf(s), "identificationModule", ["nctId"]);
    } else {
      ValueAtModule(s, "identificationModule", "nctId");
      ValueAtModule(s, "identificationModule", "briefTitle");
      ValueAtModule(s, "statusModule", "overallStatus");
      PhaseAtModule(s);
      var design := ModuleOf(s, "designModule");
      if design.JObj? {
        ValueAtSub(s, "sponsorCollaboratorsModule", "leadSponsor", "name");
        ValueAtSub(s, "designModule", "enrollmentInfo", "value");
        ValueAtSub(s, "statusModule", "startDateStruct", "date");
        ValueAtSub(s, "statusModule", "completionDateStruct", "date");
        assert ExtractStudy(s) == BuildRecord(ModuleOf(s, "identificationModule"), ModuleOf(s, "statusModule"),
          ModuleOf(s, "sponsorCollaboratorsModule"), design, Get(design, "enrollmentInfo", EmptyObject).value);
      } else {
        assert ExtractStudy(s) == Err(AttributeError);
        assert PhaseAt(s) == Err(AttributeError);
      }
    }
  }

  /** A study whose protocol section has no design module still yields a
      record, with null Phase and Enrollment; it fails only when one of the
      other columns' lookups fails. */
  lemma {:induction false} MissingDesignModuleGivesNullPhaseAndEnrollment(s: Json)
    requires Navigate(s, DesignModulePath) == Ok(None)
    ensures ExtractStudy(s).Ok? <==>
      ValueAt(s, NctIdPath).Ok? && ValueAt(s, TitlePath).Ok? && ValueAt(s, StatusPath).Ok? &&
      ValueAt(s, SponsorPath).Ok? && ValueAt(s, StartDatePath).Ok? && ValueAt(s, CompletionDatePath).Ok?
    ensures ExtractStudy(s).Ok? ==> ExtractStudy(s).value.phase == JNull && ExtractStudy(s).value.enrollment == JNull
  {
    ExtractStudyFollowsPaths(s);
    NavigateAppend(s, DesignModulePath, ["phaseList", "phases"]);
    assert DesignModulePath + ["phaseList", "phases"] == PhasesPath;
    NavigateAppend(s, DesignModulePath, ["enrollmentInfo", "value"]);
    assert DesignModulePath + ["enrollmentInfo", "value"] == EnrollmentPath;
  }

  /** Phase is the first entry of `phaseList.phases`, null when either is
      absent; a present but empty list makes the study raise IndexError. */
  lemma {:induction false} PhaseIsFirstListedPhase(s: Json)
    ensures ExtractStudy(s).Ok? ==>
      match Navigate(s, PhasesPath).value
      case None => ExtractStudy(s).value.phase == JNull
      case Some(phases) => phases.JArr? ==> phases.items != [] && ExtractStudy(s).value.phase == phases.items[0]
    ensures (ValueAt(s, NctIdPath).Ok? && ValueAt(s, TitlePath).Ok? && ValueAt(s, StatusPath).Ok? &&
             Navigate(s, PhasesPath) == Ok(Some(JArr([])))) ==> ExtractStudy(s) == Err(IndexError)
  {
    ExtractStudyFollowsPaths(s);
    PhaseByPaths(s);
  }

  lemma PhaseByPaths(s: Json)
    ensures ExtractByPaths(s).Ok? ==>
      match Navigate(s, PhasesPath).value
      case None => ExtractByPaths(s).value.phase == JNull
      case Some(phases) => phases.JArr? ==> phases.items != [] && ExtractByPaths(s).value.phase == phases.items[0]
    ensures (ValueAt(s, NctIdPath).Ok? && ValueAt(s, TitlePath).Ok? && ValueAt(s, StatusPath).Ok? &&
             Navigate(s, PhasesPath) == Ok(Some(JArr([])))) ==> ExtractByPaths(s) == Err(IndexError)
  {
    var e := ExtractByPaths(s);
    if e.Ok? {
      assert PhaseAt(s) == Ok(e.value.phase);
    }
    if Navigate(s, PhasesPath) == Ok(Some(JArr([]))) {
      assert PhaseAt(s) == Err(IndexError);
    }
  }

  /** A study object without a `protocolSection` raises nothing: every module
      defaults to `{}`, so every column of its row is null. */
  lemma EmptyStudyIsAllNull(s: Json)
    requires s.JObj? && "protocolSection" !in s.fields
    ensures ExtractStudy(s) == Ok(NullRecord)
  {
  }

  /** The per-study loop over one page: one record per study, in order; the
      first study that raises aborts the page with its exception. */
  function ExtractAll(studies: seq<Json>): (r: Result<seq<TrialRecord>, PyError>)
    ensures r.Ok? <==> forall i | 0 <= i < |studies| :: ExtractStudy(studies[i]).Ok?
    ensures r.Ok? ==> |r.value| == |studies|
    ensures r.Ok? ==> forall i | 0 <= i < |studies| :: r.value[i] == ExtractStudy(studies[i]).value
    ensures r.Err? ==> exists i | 0 <= i < |studies| :: FirstFailure(studies, i, r.error)
  {
    if studies == [] then Ok([])
    else
      var init := studies[..|studies| - 1];
      var last := studies[|studies| - 1];
      match ExtractAll(init)
      case Err(e) =>
        FirstFailureExtends(init, studies, e);
        Err(e)
      case Ok(earlier) =>
        match ExtractStudy(last)
        case Err(e) =>
          assert FirstFailure(studies, |studies| - 1, e);
          Err(e)
        case Ok(record) => Ok(earlier + [record])
  }

  /** Study `i` is the first of `studies` to raise, and it raises `e`. */
  ghost predicate FirstFailure(studies: seq<Json>, i: int, e: PyError)
    requires 0 <= i < |studies|
  {
    ExtractStudy(studies[i]) == Err(e) && forall j | 0 <= j < i :: ExtractStudy(studies[j]).Ok?
  }

  /** A study that raises after a run of studies that all extract ends the
      page with its exception. */
  lemma ExtractAllStopsAt(studies: seq<Json>, i: nat)
    requires i < |studies|
    requires ExtractAll(studies[..i]).Ok? && ExtractStudy(studies[i]).Err?
    ensures ExtractAll(studies) == Err(ExtractStudy(studies[i]).error)
  {
    forall j | 0 <= j < i
      ensures ExtractStudy(studies[j]).Ok?
    {
      assert studies[..i][j] == studies[j];
    }
    assert FirstFailure(studies, i, ExtractStudy(studies[i]).error);
    var r := ExtractAll(studies);
    var k :| 0 <= k < |studies| && FirstFailure(studies, k, r.error);
    FirstFailureUnique(studies, k, i, r.error, ExtractStudy(studies[i]).error);
  }

  /** At most one study is the first to raise. */
  lemma FirstFailureUnique(studies: seq<Json>, k: nat, i: nat, e: PyError, e': PyError)
    requires k < |studies| && i < |studies|
    requires FirstFailure(studies, k, e) && FirstFailure(studies, i, e')
    ensures k == i && e == e'
  {
  }

  /** One more study that extracts appends its record. */
  lemma ExtractAllGrows(studies: seq<Json>, i: nat)
    requires i < |studies|
    requires ExtractAll(studies[..i]).Ok? && ExtractStudy(studies[i]).Ok?
    ensures ExtractAll(studies[..i + 1]) == Ok(ExtractAll(studies[..i]).value + [ExtractStudy(studies[i]).value])
  {
    assert studies[..i + 1][..i] == studies[..i];
  }

  lemma FirstFailureExtends(init: seq<Json>, studies: seq<Json>, e: PyError)
    requires init <= studies
    requires exists i | 0 <= i < |init| :: FirstFailure(init, i, e)
    ensures exists i | 0 <= i < |studies| :: FirstFailure(studies, i, e)
  {
    var i :| 0 <= i < |init| && FirstFailure(init, i, e);
    assert FirstFailure(studies, i, e);
  }
}
