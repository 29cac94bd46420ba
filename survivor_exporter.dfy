// The survivor exporter's own rules: which assets it reads, a lead
// survivor's job, the displayed rarity, the display name and personality,
// and what it writes into the exported item.
//
// The fields of the game's worker asset that these rules read are a
// `WorkerType` value. The localized labels of the resource file (job names,
// the lead-name format, the default name) are kept symbolic: a job is a
// `Job`, a display name is a `Label`.
module SurvivorExport {
  import opened Wrappers
  import opened Text
  import opened Rarities

  /** The worker asset as the exporter reads it. */
  datatype WorkerType = WorkerType(
    isManager: bool,
    displayName: Option<string>,
    managerSynergyTags: seq<string>,
    fixedPersonalityTags: seq<string>)

  /** The eight lead-survivor jobs, one per synergy tag. */
  datatype Job = Doctor | Engineer | Explorer | Gadgeteer | Inventor | MartialArtist | Marksman | Trainer

  /**
   * Why a job cannot be named. The order of the cases is the order in which
   * the source meets them: the first synergy tag is read before the
   * manager flag is tested, so an empty tag list fails first.
   */
  datatype JobError = NoSynergyTag | NotAManager | UnexpectedSynergy(tag: string)

  /** A display name: the asset's own text, the lead-name format filled with a job, or the default name. */
  datatype Label = Literal(text: string) | LeadName(job: Job) | DefaultName

  /** The group fields the exporter produces for a survivor. */
  datatype SurvivorItemGroupFields = SurvivorItemGroupFields(
    displayName: Label,
    description: Option<string>,
    subType: Option<Job>,
    personality: Option<string>)

  /** The synergy tag that names each job; the marksman's tag says "Soldier". */
  function SynergyTag(j: Job): (tag: string)
    ensures |tag| > 19 && tag[..19] == "Homebase.Manager.Is"
  {
    match j
    case Doctor => "Homebase.Manager.IsDoctor"
    case Engineer => "Homebase.Manager.IsEngineer"
    case Explorer => "Homebase.Manager.IsExplorer"
    case Gadgeteer => "Homebase.Manager.IsGadgeteer"
    case Inventor => "Homebase.Manager.IsInventor"
    case MartialArtist => "Homebase.Manager.IsMartialArtist"
    case Marksman => "Homebase.Manager.IsSoldier"
    case Trainer => "Homebase.Manager.IsTrainer"
  }

  /** The arms of the switch in `GetManagerJob`, in order. */
  function JobOfTag(tag: string): (r: Option<Job>)
    ensures r.Some? ==> SynergyTag(r.value) == tag
  {
    if tag == "Homebase.Manager.IsDoctor" then Some(Doctor)
    else if tag == "Homebase.Manager.IsEngineer" then Some(Engineer)
    else if tag == "Homebase.Manager.IsExplorer" then Some(Explorer)
    else if tag == "Homebase.Manager.IsGadgeteer" then Some(Gadgeteer)
    else if tag == "Homebase.Manager.IsInventor" then Some(Inventor)
    else if tag == "Homebase.Manager.IsMartialArtist" then Some(MartialArtist)
    else if tag == "Homebase.Manager.IsSoldier" then Some(Marksman)
    else if tag == "Homebase.Manager.IsTrainer" then Some(Trainer)
    else None
  }

  /** Every job's tag is recognised, as that job. */
  lemma JobOfSynergyTag(j: Job)
    ensures JobOfTag(SynergyTag(j)) == Some(j)
  {
  }

  /** The mapping is closed: a tag is recognised exactly when it is one of the eight. */
  lemma JobOfTagClosed(tag: string)
    ensures JobOfTag(tag).Some? <==> exists j: Job :: SynergyTag(j) == tag
  {
    if exists j: Job :: SynergyTag(j) == tag {
      var j: Job :| SynergyTag(j) == tag;
      JobOfSynergyTag(j);
    }
  }

  /** Distinct jobs have distinct tags. */
  lemma SynergyTagInjective(a: Job, b: Job)
    ensures SynergyTag(a) == SynergyTag(b) ==> a == b
  {
    if SynergyTag(a) == SynergyTag(b) {
      JobOfSynergyTag(a);
      JobOfSynergyTag(b);
    }
  }

  /** `GetManagerJob`: the job named by the first synergy tag of a manager. */
  function GetManagerJob(w: WorkerType): (r: Result<Job, JobError>)
    ensures w.managerSynergyTags == [] ==> r == Failure(NoSynergyTag)
    ensures w.managerSynergyTags != [] && !w.isManager ==> r == Failure(NotAManager)
    ensures w.managerSynergyTags != [] && w.isManager ==>
              (r.Success? <==> exists j: Job :: SynergyTag(j) == w.managerSynergyTags[0])
    ensures r.Success? ==> w.isManager && SynergyTag(r.value) == w.managerSynergyTags[0]
    ensures r.Failure? && r.error.UnexpectedSynergy? ==>
              w.isManager && r.error.tag == w.managerSynergyTags[0]
    ensures w.managerSynergyTags != [] && w.isManager && r.Failure? ==>
              r.error == UnexpectedSynergy(w.managerSynergyTags[0])
  {
    if w.managerSynergyTags == [] then Failure(NoSynergyTag)
    else
      var first := w.managerSynergyTags[0];
      JobOfTagClosed(first);
      if !w.isManager then Failure(NotAManager)
      else match JobOfTag(first)
        case Some(j) => Success(j)
        case None => Failure(UnexpectedSynergy(first))
  }

  /** The soldier tag names the marksman job. */
  lemma SoldierIsMarksman(w: WorkerType)
    requires w.isManager && |w.managerSynergyTags| > 0
    requires w.managerSynergyTags[0] == "Homebase.Manager.IsSoldier"
    ensures GetManagerJob(w) == Success(Marksman)
  {
    assert SynergyTag(Marksman) == w.managerSynergyTags[0];
    SynergyTagInjective(GetManagerJob(w).value, Marksman);
  }

  /** Only the first synergy tag matters. */
  lemma OnlyFirstSynergyTagMatters(w: WorkerType, more: seq<string>)
    requires |w.managerSynergyTags| > 0
    ensures GetManagerJob(w.(managerSynergyTags := [w.managerSynergyTags[0]] + more)) == GetManagerJob(w)
  {
  }

  /**
   * `GetRarity`: the rarity shown for a survivor, on the ordered scale of the
   * game's rarities (0 for common, 5 for mythic). A lead survivor is shown
   * one step above the rarity its asset name carries.
   */
  function GetRarity(baseRarity: nat, isManager: bool): (r: nat)
    ensures isManager ==> r > baseRarity
    ensures !isManager ==> r == baseRarity
    ensures r <= baseRarity + 1
  {
    if isManager then baseRarity + 1 else baseRarity
  }

  /** A lead named "SR" is shown as mythic; every other named rarity of a lead moves up by one code. */
  lemma LeadRarityShift(r: Rarity)
    requires r != UR
    ensures GetRarity(Ordinal(r), true) == Ordinal(AllRarities[Ordinal(r) + 1])
  {
    assert Ordinal(r) + 1 < |AllRarities| by {
      assert AllRarities[Ordinal(r)] == r && AllRarities[5] == UR;
    }
  }

  lemma MythicLeadIsNamedSR()
    ensures GetRarity(Ordinal(SR), true) == Ordinal(UR)
  {
    LeadRarityShift(SR);
    assert AllRarities[Ordinal(SR) + 1] == UR;
  }

  /** `MakeSurvivorDisplayName`: the lead-name format with the job for a manager, otherwise the default name. */
  function MakeSurvivorDisplayName(w: WorkerType): (r: Result<Label, JobError>)
    ensures !w.isManager ==> r == Success(DefaultName)
    ensures w.isManager ==> (r.Success? <==> GetManagerJob(w).Success?)
    ensures w.isManager && r.Success? ==> r.value == LeadName(GetManagerJob(w).value)
    ensures w.isManager && r.Failure? ==> r.error == GetManagerJob(w).error
  {
    if w.isManager then
      match GetManagerJob(w)
      case Success(j) => Success(LeadName(j))
      case Failure(e) => Failure(e)
    else Success(DefaultName)
  }

  /**
   * The text after the last '.' of a tag, or the whole tag when it has no
   * '.': the last element of `Split('.')`.
   */
  function LastSegment(s: string): (r: string)
    ensures |r| <= |s| && r == s[|s| - |r|..]
    ensures '.' !in r
    ensures |r| == |s| || s[|s| - |r| - 1] == '.'
  {
    if |s| == 0 || s[|s| - 1] == '.' then []
    else
      var r := LastSegment(s[..|s| - 1]);
      assert s[..|s| - 1][|s| - 1 - |r|..] == s[|s| - 1 - |r|..|s| - 1];
      r + [s[|s| - 1]]
  }

  /** A tag whose last part is `p` after a '.' gives back `p`. */
  lemma {:induction false} LastSegmentOf(prefix: string, p: string)
    requires '.' !in p
    ensures LastSegment(prefix + "." + p) == p
  {
    var s := prefix + "." + p;
    if p != [] {
      var q := p[..|p| - 1];
      assert s[..|s| - 1] == prefix + "." + q;
      assert s[|s| - 1] == p[|p| - 1] && p[|p| - 1] in p;
      LastSegmentOf(prefix, q);
      assert p == q + [p[|p| - 1]];
    }
  }

  /** `Personality`: the last part of the only personality tag, or None when there is not exactly one. */
  function Personality(w: WorkerType): (r: Option<string>)
    ensures r.Some? <==> |w.fixedPersonalityTags| == 1
    ensures r.Some? ==> '.' !in r.value && EndsWith(w.fixedPersonalityTags[0], r.value)
    ensures r.Some? ==> var t := w.fixedPersonalityTags[0];
      |r.value| == |t| || t[|t| - |r.value| - 1] == '.'
  {
    if |w.fixedPersonalityTags| == 1 then Some(LastSegment(w.fixedPersonalityTags[0])) else None
  }

  /** The personality of a worker with one tag `prefix.p` is `p`. */
  lemma PersonalityOfOneTag(w: WorkerType, prefix: string, p: string)
    requires w.fixedPersonalityTags == [prefix + "." + p] && '.' !in p
    ensures Personality(w) == Some(p)
  {
    LastSegmentOf(prefix, p);
  }

  predicate EndsWith(s: string, t: string) { |t| <= |s| && s[|s| - |t|..] == t }

  /**
   * `ExtractCommonFieldsAsync` after the inherited fields `inherited` are
   * read: the job of a manager, the display name and the personality
   * replace the inherited ones; the description is kept. A manager whose
   * job cannot be named makes the whole extraction fail.
   */
  function ExtractCommonFields(w: WorkerType, inherited: SurvivorItemGroupFields): (r: Result<SurvivorItemGroupFields, JobError>)
    ensures r.Failure? <==> w.isManager && GetManagerJob(w).Failure?
    ensures r.Failure? ==> r.error == GetManagerJob(w).error
    ensures r.Success? ==> r.value.description == inherited.description
    ensures r.Success? ==> (r.value.subType.Some? <==> w.isManager)
    ensures r.Success? && w.isManager ==> SynergyTag(r.value.subType.value) == w.managerSynergyTags[0]
    ensures r.Success? && w.displayName.Some? ==> r.value.displayName == Literal(w.displayName.value)
    ensures r.Success? && w.displayName.None? && w.isManager ==> r.value.displayName == LeadName(r.value.subType.value)
    ensures r.Success? && w.displayName.None? && !w.isManager ==> r.value.displayName == DefaultName
    ensures r.Success? ==> r.value.personality == Personality(w)
  {
    var subType: Result<Option<Job>, JobError> :=
      if !w.isManager then Success(None)
      else match GetManagerJob(w)
        case Success(j) => Success(Some(j))
        case Failure(e) => Failure(e);
    match subType
    case Failure(e) => Failure(e)
    case Success(job) =>
      var displayName := if w.displayName.Some? then Success(Literal(w.displayName.value)) else MakeSurvivorDisplayName(w);
      match displayName
      case Failure(e) => Failure(e)
      case Success(name) =>
        Success(inherited.(subType := job, displayName := name, personality := Personality(w)))
  }

  /** `InterestedInAsset`: the path names a worker or a manager asset. */
  function InterestedInAsset(name: string): (b: bool)
    ensures b <==> (exists i: nat :: OccursAt(name, "Workers/Worker", i))
                   || (exists i: nat :: OccursAt(name, "Managers/Manager", i))
  {
    Contains(name, "Workers/Worker") || Contains(name, "Managers/Manager")
  }

  /** Any asset under a `Workers` or `Managers` directory whose file name starts with the same word is read. */
  lemma InterestedInSurvivorFolders(dir: string, file: string)
    ensures InterestedInAsset(dir + "Workers/Worker" + file)
    ensures InterestedInAsset(dir + "Managers/Manager" + file)
  {
    var w := dir + "Workers/Worker" + file;
    assert OccursAt(w, "Workers/Worker", |dir|) by {
      assert w[|dir|..|dir| + 14] == "Workers/Worker";
    }
    var m := dir + "Managers/Manager" + file;
    assert OccursAt(m, "Managers/Manager", |dir|) by {
      assert m[|dir|..|dir| + 16] == "Managers/Manager";
    }
  }

  /** The exported survivor item; the exporter writes only its personality. */
  class SurvivorItemData {
    var personality: Option<string>

    constructor ()
      ensures personality == None
    {
      personality := None;
    }
  }

  /** `ExportAssetAsync`: copies the personality into the item and always succeeds. */
  method ExportAsset(fields: SurvivorItemGroupFields, itemData: SurvivorItemData) returns (exported: bool)
    modifies itemData
    ensures itemData.personality == fields.personality
    ensures exported
  {
    itemData.personality := fields.personality;
    exported := true;
  }
}
