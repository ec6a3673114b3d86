/**
 Loading a profile from the shared config files and following its `source_profile`s (aws/session/shared_config.go),
 and choosing credentials from the result (aws/session/credentials.go).

 A file is a map from section names to sections, a section a map from keys to values. Of the fields of a config
 those that decide about credentials are modelled, the region, and the one option whose value can be malformed.
 */
module SharedConfigs {
  import opened Prelude

  type Section = map<string, string>
  type File = map<string, Section>

  datatype Error = ProfileNotFound(profile: string) | MalformedOption(file: nat) | SourceCollision

  /** `credentials.Value` with the file it was read from, or the zero value. */
  datatype Creds = NoCreds | Keys(accessKey: string, secretKey: string, token: string, file: nat)

  datatype Config = Config(
    profile: string,
    creds: Creds,
    credentialSource: string,
    credentialProcess: string,
    roleArn: string,
    sourceProfileName: string,
    region: string)

  function Zero(profile: string): Config { Config(profile, NoCreds, "", "", "", "", "") }

  /** A section's value for a key, empty when it has none. */
  function Get(s: Section, key: string): string { if key in s then s[key] else "" }

  /** `updateString`: only a key that is present overwrites, even with an empty value. */
  function Updated(current: string, s: Section, key: string): string { if key in s then s[key] else current }

  /** A profile's section in a file, by its own name or else as "profile" and the name. */
  function SectionOf(f: File, profile: string): Option<Section> {
    if profile in f then Some(f[profile])
    else if "profile " + profile in f then Some(f["profile " + profile])
    else None
  }

  /** Case-insensitive comparison is an input: the spellings that the option accepts. */
  datatype Options = Options(extended: bool, endpointSpellings: set<string>)

  /** `setFromIniFile` for a section that exists; `index` is the file's place in the list. */
  function FromSection(cfg: Config, s: Section, index: nat, opts: Options): Result<Config, Error> {
    var endpoint := Get(s, "s3_us_east_1_regional_endpoint");
    if opts.extended && endpoint != "" && endpoint !in opts.endpointSpellings then Err(MalformedOption(index))
    else
      var extended :=
        if opts.extended then
          cfg.(roleArn := Updated(cfg.roleArn, s, "role_arn"),
               sourceProfileName := Updated(cfg.sourceProfileName, s, "source_profile"),
               credentialSource := Updated(cfg.credentialSource, s, "credential_source"),
               region := Updated(cfg.region, s, "region"))
        else cfg;
      Ok(extended.(
           credentialProcess := Updated(cfg.credentialProcess, s, "credential_process"),
           creds := if Get(s, "aws_access_key_id") != "" && Get(s, "aws_secret_access_key") != ""
                    then Keys(Get(s, "aws_access_key_id"), Get(s, "aws_secret_access_key"),
                              Get(s, "aws_session_token"), index)
                    else cfg.creds,
           region := if Get(s, "region") != "" then Get(s, "region") else extended.region))
  }

  /** The files from `index` on, each overwriting what came before; a file without the profile is skipped. */
  function FromFiles(cfg: Config, files: seq<File>, index: nat, opts: Options): Result<Config, Error>
    requires index <= |files|
    decreases |files| - index
  {
    if index == |files| then Ok(cfg)
    else
      match SectionOf(files[index], cfg.profile)
      case None => FromFiles(cfg, files, index + 1, opts)
      case Some(s) =>
        match FromSection(cfg, s, index, opts)
        case Err(e) => Err(e)
        case Ok(next) => FromFiles(next, files, index + 1, opts)
  }

  predicate Defined(files: seq<File>, profile: string) {
    exists i | 0 <= i < |files| :: SectionOf(files[i], profile).Some?
  }

  /** `validateCredentialType`: at most one of the three ways to get credentials is named. */
  predicate OneOrNone(cfg: Config) {
    && !(cfg.sourceProfileName != "" && cfg.credentialSource != "")
    && !(cfg.sourceProfileName != "" && cfg.credentialProcess != "")
    && !(cfg.credentialSource != "" && cfg.credentialProcess != "")
  }

  function Cleared(cfg: Config): Config { cfg.(credentialSource := "", credentialProcess := "", creds := NoCreds) }

  /** One profile by itself, before its source is followed. */
  function Own(files: seq<File>, profile: string, opts: Options): Result<Config, Error> {
    match FromFiles(Zero(profile), files, 0, opts)
    case Err(e) => Err(e)
    case Ok(cfg) =>
      if files != [] && !Defined(files, profile) then Err(ProfileNotFound(profile))
      else if files != [] && !OneOrNone(cfg) then Err(SourceCollision)
      else Ok(if cfg.sourceProfileName != "" then Cleared(cfg) else cfg)
  }

  /** The profile whose credentials `profile` asks for. */
  function Source(files: seq<File>, opts: Options, profile: string): Option<string> {
    match Own(files, profile, opts)
    case Err(_) => None
    case Ok(cfg) => if cfg.sourceProfileName == "" then None else Some(cfg.sourceProfileName)
  }

  /**
   `setFromIniFiles` as written, with `depth` bounding the recursion: None means that the bound was hit. The result
   is the chain of configs from the profile to the last source.
   */
  function Load(files: seq<File>, opts: Options, profile: string, depth: nat): Option<Result<seq<Config>, Error>>
    decreases depth
  {
    match Own(files, profile, opts)
    case Err(e) => Some(Err(e))
    case Ok(cfg) =>
      if cfg.sourceProfileName == "" then Some(Ok([cfg]))
      else if depth == 0 then None
      else
        match Load(files, opts, cfg.sourceProfileName, depth - 1)
        case None => None
        case Some(Err(e)) => Some(Err(e))
        case Some(Ok(chain)) => Some(Ok([cfg] + chain))
  }

  // ------------------------------------------------------------ termination

  /** The profile reached after `n` sources. */
  function Walk(files: seq<File>, opts: Options, profile: string, n: nat): Option<string> {
    if n == 0 then Some(profile)
    else
      match Walk(files, opts, profile, n - 1)
      case None => None
      case Some(p) => Source(files, opts, p)
  }

  /** Following the sources comes back to a profile already seen. */
  ghost predicate Cyclic(files: seq<File>, opts: Options, profile: string) {
    exists i: nat, j: nat ::
      i < j && Walk(files, opts, profile, i).Some? && Walk(files, opts, profile, i) == Walk(files, opts, profile, j)
  }

  lemma {:induction false} WalkFrom(files: seq<File>, opts: Options, profile: string, i: nat, n: nat)
    requires Walk(files, opts, profile, i).Some?
    ensures Walk(files, opts, profile, i + n) == Walk(files, opts, Walk(files, opts, profile, i).value, n)
    decreases n
  {
    hide Source;
    if n > 0 {
      WalkFrom(files, opts, profile, i, n - 1);
      assert i + (n - 1) == i + n - 1;
    }
  }

  lemma {:induction false} WalkStaysEnded(files: seq<File>, opts: Options, profile: string, i: nat, j: nat)
    requires i <= j && Walk(files, opts, profile, i).None?
    ensures Walk(files, opts, profile, j).None?
    decreases j
  {
    hide Source;
    if i < j {
      WalkStaysEnded(files, opts, profile, i, j - 1);
    }
  }

  /** Loading returns within a depth exactly when the walk ends within as many steps. */
  lemma {:induction false} LoadReturnsWhenWalkEnds(files: seq<File>, opts: Options, profile: string, depth: nat)
    ensures Load(files, opts, profile, depth).Some? <==> Walk(files, opts, profile, depth + 1).None?
    decreases depth
  {
    hide Own;
    assert Walk(files, opts, profile, 0) == Some(profile);
    assert Walk(files, opts, profile, 1) == Source(files, opts, profile);
    if Source(files, opts, profile).None? {
      WalkStaysEnded(files, opts, profile, 1, depth + 1);
    } else if depth > 0 {
      WalkFrom(files, opts, profile, 1, depth);
      LoadReturnsWhenWalkEnds(files, opts, Source(files, opts, profile).value, depth - 1);
    }
  }

  lemma {:induction false} CycleRepeats(files: seq<File>, opts: Options, profile: string, i: nat, j: nat, rounds: nat)
    requires i < j && Walk(files, opts, profile, i).Some?
    requires Walk(files, opts, profile, i) == Walk(files, opts, profile, j)
    ensures Walk(files, opts, profile, i + rounds * (j - i)) == Walk(files, opts, profile, i)
    decreases rounds
  {
    hide Walk;
    if rounds > 0 {
      CycleRepeats(files, opts, profile, i, j, rounds - 1);
      var before := i + (rounds - 1) * (j - i);
      assert i + rounds * (j - i) == before + (j - i);
      WalkFrom(files, opts, profile, before, j - i);
      WalkFrom(files, opts, profile, i, j - i);
    }
  }

  /** The names by which some file defines a profile. */
  function Names(files: seq<File>): set<string> {
    (set f, k | f in files && k in f :: k) + (set f, k | f in files && k in f && |k| >= 8 :: k[8..])
  }

  lemma DefinedIsNamed(files: seq<File>, profile: string)
    requires Defined(files, profile)
    ensures profile in Names(files)
  {
    var i :| 0 <= i < |files| && SectionOf(files[i], profile).Some?;
    if profile !in files[i] {
      var k := "profile " + profile;
      assert k in files[i] && k[8..] == profile;
    }
  }

  /** The profiles that the first `n` steps of the walk start from. */
  function Visited(files: seq<File>, opts: Options, profile: string, n: nat): set<string> {
    set i | 0 <= i < n && Walk(files, opts, profile, i).Some? :: Walk(files, opts, profile, i).value
  }

  lemma {:induction false} AcyclicVisitsDistinct(files: seq<File>, opts: Options, profile: string, n: nat)
    requires !Cyclic(files, opts, profile) && Walk(files, opts, profile, n).Some?
    ensures |Visited(files, opts, profile, n)| == n
    ensures Visited(files, opts, profile, n) <= Names(files)
    decreases n
  {
    hide Source, Defined, Names;
    if n == 0 {
      assert Visited(files, opts, profile, 0) == {};
    } else {
      var p := Walk(files, opts, profile, n - 1).value;
      AcyclicVisitsDistinct(files, opts, profile, n - 1);
      assert Visited(files, opts, profile, n) == Visited(files, opts, profile, n - 1) + {p};
      assert Source(files, opts, p).Some?;
      HasSourceIsDefined(files, opts, p);
      DefinedIsNamed(files, p);
      assert p !in Visited(files, opts, profile, n - 1);
    }
  }

  lemma HasSourceIsDefined(files: seq<File>, opts: Options, profile: string)
    requires Source(files, opts, profile).Some?
    ensures Defined(files, profile)
  {
  }

  lemma {:induction false} SubsetSize<T>(a: set<T>, b: set<T>)
    requires a <= b
    ensures |a| <= |b|
  {
    assert b == a + (b - a);
  }

  /** An acyclic walk ends within as many steps as there are names of profiles. */
  lemma AcyclicWalkEnds(files: seq<File>, opts: Options, profile: string)
    requires !Cyclic(files, opts, profile)
    ensures Walk(files, opts, profile, |Names(files)| + 1).None?
  {
    var n := |Names(files)| + 1;
    if Walk(files, opts, profile, n).Some? {
      AcyclicVisitsDistinct(files, opts, profile, n);
      SubsetSize(Visited(files, opts, profile, n), Names(files));
      assert false;
    }
  }

  /**
   The visited set that loading fills is never read, so loading returns if and only if following `source_profile`
   from the profile does not come back to a profile already seen.
   */
  lemma LoadReturnsExactlyWhenAcyclic(files: seq<File>, opts: Options, profile: string)
    ensures (exists depth: nat :: Load(files, opts, profile, depth).Some?) <==> !Cyclic(files, opts, profile)
    ensures !Cyclic(files, opts, profile) ==> Load(files, opts, profile, |Names(files)|).Some?
  {
    hide Load, Source, Names, Walk;
    if Cyclic(files, opts, profile) {
      var i: nat, j: nat :| i < j && Walk(files, opts, profile, i).Some?
                         && Walk(files, opts, profile, i) == Walk(files, opts, profile, j);
      forall depth: nat
        ensures Load(files, opts, profile, depth).None?
      {
        LoadReturnsWhenWalkEnds(files, opts, profile, depth);
        CycleRepeats(files, opts, profile, i, j, depth + 1);
        MulLe(depth + 1, 1, j - i);
        if Walk(files, opts, profile, depth + 1).None? {
          WalkStaysEnded(files, opts, profile, depth + 1, i + (depth + 1) * (j - i));
          assert false;
        }
      }
    } else {
      AcyclicWalkEnds(files, opts, profile);
      LoadReturnsWhenWalkEnds(files, opts, profile, |Names(files)|);
    }
  }

  // ------------------------------------------------------------- the chain

  /**
   The shape of what loading returns: each link is the source its parent names, and only the last names no source,
   and only it may carry credentials, a credential source or a credential process.
   */
  predicate Linked(chain: seq<Config>, profile: string) {
    && chain != [] && chain[0].profile == profile
    && chain[|chain| - 1].sourceProfileName == ""
    && forall i | 0 <= i < |chain| - 1 :: LinksTo(chain[i], chain[i + 1])
  }

  predicate LinksTo(cfg: Config, source: Config) {
    && cfg.sourceProfileName == source.profile != ""
    && cfg.creds == NoCreds && cfg.credentialSource == "" && cfg.credentialProcess == ""
  }

  lemma {:induction false} FilesKeepProfile(cfg: Config, files: seq<File>, index: nat, opts: Options)
    requires index <= |files|
    ensures var r := FromFiles(cfg, files, index, opts); r.Ok? ==> r.value.profile == cfg.profile
    decreases |files| - index
  {
    if index < |files| && SectionOf(files[index], cfg.profile).Some? {
      var r := FromSection(cfg, SectionOf(files[index], cfg.profile).value, index, opts);
      if r.Ok? {
        FilesKeepProfile(r.value, files, index + 1, opts);
      }
    } else if index < |files| {
      FilesKeepProfile(cfg, files, index + 1, opts);
    }
  }

  lemma {:induction false} LoadedChainIsLinked(files: seq<File>, opts: Options, profile: string, depth: nat)
    ensures var r := Load(files, opts, profile, depth);
            r.Some? && r.value.Ok? ==> Linked(r.value.value, profile) && |r.value.value| <= depth + 1
    decreases depth
  {
    hide FromFiles, OneOrNone, Defined;
    FilesKeepProfile(Zero(profile), files, 0, opts);
    var own := Own(files, profile, opts);
    if own.Ok? && own.value.sourceProfileName != "" && depth > 0 {
      LoadedChainIsLinked(files, opts, own.value.sourceProfileName, depth - 1);
      var rest := Load(files, opts, own.value.sourceProfileName, depth - 1);
      if rest.Some? && rest.value.Ok? {
        var chain := [own.value] + rest.value.value;
        assert forall i | 1 <= i < |chain| :: chain[i] == rest.value.value[i - 1];
      }
    }
  }

  lemma FirstSteps(files: seq<File>, opts: Options, profile: string)
    ensures Walk(files, opts, profile, 0) == Some(profile)
    ensures Walk(files, opts, profile, 1) == Source(files, opts, profile)
  {
    hide Source;
    assert Walk(files, opts, profile, 0) == Some(profile);
  }

  lemma OwnKeepsProfile(files: seq<File>, opts: Options, profile: string)
    ensures var own := Own(files, profile, opts);
            own.Ok? ==>
              && own.value.profile == profile
              && Source(files, opts, profile)
                 == if own.value.sourceProfileName == "" then None else Some(own.value.sourceProfileName)
  {
    FilesKeepProfile(Zero(profile), files, 0, opts);
    hide FromFiles, Defined, OneOrNone;
  }

  /** The chain is the walk: each link is the profile reached after as many sources, by itself. */
  lemma {:induction false} ChainIsTheWalk(files: seq<File>, opts: Options, profile: string, depth: nat, i: nat)
    requires Load(files, opts, profile, depth).Some? && Load(files, opts, profile, depth).value.Ok?
    requires i < |Load(files, opts, profile, depth).value.value|
    ensures var link := Load(files, opts, profile, depth).value.value[i];
            Walk(files, opts, profile, i) == Some(link.profile) && Own(files, link.profile, opts) == Ok(link)
    decreases depth
  {
    FirstSteps(files, opts, profile);
    OwnKeepsProfile(files, opts, profile);
    hide Own, Source, Walk;
    if i > 0 {
      var next := Own(files, profile, opts).value.sourceProfileName;
      ChainIsTheWalk(files, opts, next, depth - 1, i - 1);
      WalkFrom(files, opts, profile, 1, i - 1);
    }
  }

  lemma LoadedIsAcyclic(files: seq<File>, opts: Options, profile: string, depth: nat)
    requires Load(files, opts, profile, depth).Some?
    ensures !Cyclic(files, opts, profile)
  {
    hide Load, Cyclic, Names;
    LoadReturnsExactlyWhenAcyclic(files, opts, profile);
  }

  /** A chain is no longer than the number of profile names in the files. */
  lemma ChainNoLongerThanProfiles(files: seq<File>, opts: Options, profile: string, depth: nat)
    requires files != []
    requires Load(files, opts, profile, depth).Some? && Load(files, opts, profile, depth).value.Ok?
    ensures |Load(files, opts, profile, depth).value.value| <= |Names(files)|
  {
    var chain := Load(files, opts, profile, depth).value.value;
    LoadedIsAcyclic(files, opts, profile, depth);
    LoadedChainIsLinked(files, opts, profile, depth);
    var n := |chain| - 1;
    ChainIsTheWalk(files, opts, profile, depth, n);
    AcyclicVisitsDistinct(files, opts, profile, n);
    var last := chain[n].profile;
    assert Defined(files, last);
    DefinedIsNamed(files, last);
    hide Load, Own, Names, Walk;
    assert last !in Visited(files, opts, profile, n);
    SubsetSize(Visited(files, opts, profile, n) + {last}, Names(files));
  }

  // ------------------------------------------------------- what files give

  /** A profile is found by its own name first. */
  lemma PlainNameComesFirst(f: File, profile: string, s: Section)
    ensures SectionOf(f[profile := s], profile) == Some(s)
    ensures profile !in f ==> SectionOf(f["profile " + profile := s], profile) == Some(s)
    ensures SectionOf(f, profile) == None <==> profile !in f && "profile " + profile !in f
  {
    assert |"profile " + profile| > |profile|;
  }

  /** The file has the key for the profile, with a value that counts. */
  predicate Gives(f: File, profile: string, key: string, orEmpty: bool) {
    var s := SectionOf(f, profile);
    s.Some? && key in s.value && (orEmpty || s.value[key] != "")
  }

  predicate GivesKeys(f: File, profile: string) {
    Gives(f, profile, "aws_access_key_id", false) && Gives(f, profile, "aws_secret_access_key", false)
  }

  /** The value in the last of the first `end` files that has one, empty when none has. */
  predicate IsLast(files: seq<File>, profile: string, key: string, orEmpty: bool, end: nat, v: string)
    requires end <= |files|
  {
    || (v == "" && forall i | 0 <= i < end :: !Gives(files[i], profile, key, orEmpty))
    || (exists i | 0 <= i < end ::
          && Gives(files[i], profile, key, orEmpty) && v == SectionOf(files[i], profile).value[key]
          && forall j | i < j < end :: !Gives(files[j], profile, key, orEmpty))
  }

  lemma IsLastStep(files: seq<File>, profile: string, key: string, orEmpty: bool, end: nat, v: string)
    requires end < |files| && IsLast(files, profile, key, orEmpty, end, v)
    ensures IsLast(files, profile, key, orEmpty, end + 1,
                   if Gives(files[end], profile, key, orEmpty) then SectionOf(files[end], profile).value[key] else v)
  {
    hide Gives;
  }

  /** The keys are those of one file, the last of the first `end` files that has both. */
  predicate CredsFrom(files: seq<File>, profile: string, end: nat, creds: Creds)
    requires end <= |files|
  {
    if creds.NoCreds? then forall i | 0 <= i < end :: !GivesKeys(files[i], profile)
    else
      var i := creds.file;
      && i < end && GivesKeys(files[i], profile) && (forall j | i < j < end :: !GivesKeys(files[j], profile))
      && var s := SectionOf(files[i], profile).value;
         creds == Keys(s["aws_access_key_id"], s["aws_secret_access_key"], Get(s, "aws_session_token"), i)
  }

  /** Every field is what the last file gives for it; the option to ignore extended keys ignores them. */
  predicate FieldsFrom(files: seq<File>, profile: string, opts: Options, end: nat, cfg: Config)
    requires end <= |files|
  {
    && cfg.profile == profile && CredsFrom(files, profile, end, cfg.creds)
    && IsLast(files, profile, "credential_process", true, end, cfg.credentialProcess)
    && IsLast(files, profile, "region", opts.extended, end, cfg.region)
    && if opts.extended then
         && IsLast(files, profile, "role_arn", true, end, cfg.roleArn)
         && IsLast(files, profile, "source_profile", true, end, cfg.sourceProfileName)
         && IsLast(files, profile, "credential_source", true, end, cfg.credentialSource)
       else cfg.roleArn == cfg.sourceProfileName == cfg.credentialSource == ""
  }

  /** One more file with the profile. */
  lemma FieldsStep(cfg: Config, files: seq<File>, index: nat, opts: Options)
    requires index < |files| && FieldsFrom(files, cfg.profile, opts, index, cfg)
    requires SectionOf(files[index], cfg.profile).Some?
    ensures var r := FromSection(cfg, SectionOf(files[index], cfg.profile).value, index, opts);
            r.Ok? ==> FieldsFrom(files, cfg.profile, opts, index + 1, r.value)
  {
    hide IsLast;
    var p := cfg.profile;
    IsLastStep(files, p, "credential_process", true, index, cfg.credentialProcess);
    IsLastStep(files, p, "region", opts.extended, index, cfg.region);
    if opts.extended {
      IsLastStep(files, p, "role_arn", true, index, cfg.roleArn);
      IsLastStep(files, p, "source_profile", true, index, cfg.sourceProfileName);
      IsLastStep(files, p, "credential_source", true, index, cfg.credentialSource);
    }
  }

  /** One more file without it. */
  lemma FieldsSkip(cfg: Config, files: seq<File>, index: nat, opts: Options)
    requires index < |files| && FieldsFrom(files, cfg.profile, opts, index, cfg)
    requires SectionOf(files[index], cfg.profile).None?
    ensures FieldsFrom(files, cfg.profile, opts, index + 1, cfg)
  {
    hide IsLast;
    var p := cfg.profile;
    IsLastStep(files, p, "credential_process", true, index, cfg.credentialProcess);
    IsLastStep(files, p, "region", opts.extended, index, cfg.region);
    if opts.extended {
      IsLastStep(files, p, "role_arn", true, index, cfg.roleArn);
      IsLastStep(files, p, "source_profile", true, index, cfg.sourceProfileName);
      IsLastStep(files, p, "credential_source", true, index, cfg.credentialSource);
    }
  }

  /** The option of file `i` is malformed for the profile. */
  predicate Malformed(files: seq<File>, profile: string, opts: Options, i: nat)
    requires i < |files|
  {
    && opts.extended && Gives(files[i], profile, "s3_us_east_1_regional_endpoint", false)
    && SectionOf(files[i], profile).value["s3_us_east_1_regional_endpoint"] !in opts.endpointSpellings
  }

  lemma {:induction false} LastFileWins(cfg: Config, files: seq<File>, index: nat, opts: Options)
    requires index <= |files| && FieldsFrom(files, cfg.profile, opts, index, cfg)
    ensures match FromFiles(cfg, files, index, opts)
            case Ok(all) =>
              && FieldsFrom(files, cfg.profile, opts, |files|, all)
              && forall i | index <= i < |files| :: !Malformed(files, cfg.profile, opts, i)
            case Err(e) =>
              && e.MalformedOption? && index <= e.file < |files| && Malformed(files, cfg.profile, opts, e.file)
              && forall i | index <= i < e.file :: !Malformed(files, cfg.profile, opts, i)
    decreases |files| - index
  {
    hide FieldsFrom;
    if index < |files| {
      var s := SectionOf(files[index], cfg.profile);
      if s.Some? {
        FieldsStep(cfg, files, index, opts);
        var r := FromSection(cfg, s.value, index, opts);
        if r.Ok? {
          assert r.value.profile == cfg.profile;
          LastFileWins(r.value, files, index + 1, opts);
        }
      } else {
        FieldsSkip(cfg, files, index, opts);
        LastFileWins(cfg, files, index + 1, opts);
      }
    }
  }

  predicate WellFormed(files: seq<File>, profile: string, opts: Options, end: nat)
    requires end <= |files|
  {
    forall i | 0 <= i < end :: !Malformed(files, profile, opts, i)
  }

  /** What a profile is by itself, or why it fails, in terms of the files; `all` is what they give. */
  lemma OwnExactly(files: seq<File>, profile: string, opts: Options) returns (all: Config)
    ensures match Own(files, profile, opts)
            case Err(MalformedOption(i)) =>
              i < |files| && Malformed(files, profile, opts, i) && WellFormed(files, profile, opts, i)
            case Err(ProfileNotFound(name)) =>
              && name == profile && files != []
              && forall f | f in files :: profile !in f && "profile " + profile !in f
            case Err(SourceCollision) =>
              && WellFormed(files, profile, opts, |files|) && FieldsFrom(files, profile, opts, |files|, all)
              && 2 <= (if all.sourceProfileName != "" then 1 else 0) + (if all.credentialSource != "" then 1 else 0)
                      + (if all.credentialProcess != "" then 1 else 0)
            case Ok(cfg) =>
              && WellFormed(files, profile, opts, |files|) && FieldsFrom(files, profile, opts, |files|, all)
              && (files == [] || exists f | f in files :: profile in f || "profile " + profile in f)
              && (all.sourceProfileName == "" ==>
                    cfg == all && (all.credentialSource == "" || all.credentialProcess == ""))
              && (all.sourceProfileName != "" ==>
                    && cfg == all.(creds := NoCreds, credentialSource := "", credentialProcess := "")
                    && all.credentialSource == all.credentialProcess == "")
  {
    LastFileWins(Zero(profile), files, 0, opts);
    var r := FromFiles(Zero(profile), files, 0, opts);
    all := if r.Ok? then r.value else Zero(profile);
    if files != [] && Defined(files, profile) {
      var i :| 0 <= i < |files| && SectionOf(files[i], profile).Some?;
      assert files[i] in files;
    } else if files == [] {
      assert all == Zero(profile);
    }
    hide FieldsFrom, FromFiles;
  }

  /**
   Access key and secret key always come from one file: the last that has both for the profile. A profile with a
   source has none.
   */
  lemma KeysComeFromOneFile(files: seq<File>, profile: string, opts: Options)
    requires Own(files, profile, opts).Ok?
    ensures var cfg := Own(files, profile, opts).value;
            if cfg.sourceProfileName != "" then cfg.creds == NoCreds
            else CredsFrom(files, profile, |files|, cfg.creds)
  {
    var _ := OwnExactly(files, profile, opts);
    hide Own;
  }

  /** The profile reached after `n` sources fails by itself, with this error. */
  predicate FailsAt(files: seq<File>, opts: Options, profile: string, n: nat, e: Error) {
    var p := Walk(files, opts, profile, n);
    p.Some? && Own(files, p.value, opts) == Err(e)
  }

  lemma FailsLater(files: seq<File>, opts: Options, profile: string, n: nat, e: Error)
    requires Source(files, opts, profile).Some?
    ensures FailsAt(files, opts, profile, n + 1, e) <==>
              FailsAt(files, opts, Source(files, opts, profile).value, n, e)
  {
    hide Own, Source, Walk;
    FirstSteps(files, opts, profile);
    WalkFrom(files, opts, profile, 1, n);
    assert 1 + n == n + 1;
  }

  lemma FailsHere(files: seq<File>, opts: Options, profile: string, n: nat, e: Error)
    requires Source(files, opts, profile).None? && FailsAt(files, opts, profile, n, e)
    ensures n == 0 && Own(files, profile, opts) == Err(e)
  {
    hide Own, Source, Walk;
    FirstSteps(files, opts, profile);
    if n > 0 {
      WalkStaysEnded(files, opts, profile, 1, n);
    }
  }

  /** Loading fails if and only if a profile on the walk fails by itself, and then as it does. */
  lemma {:induction false} LoadFailsExactlyWhen(files: seq<File>, opts: Options, profile: string, depth: nat, e: Error)
    requires Load(files, opts, profile, depth).Some?
    ensures Load(files, opts, profile, depth).value == Err(e) <==>
              exists n | 0 <= n <= depth :: FailsAt(files, opts, profile, n, e)
    decreases depth
  {
    FirstSteps(files, opts, profile);
    OwnKeepsProfile(files, opts, profile);
    assert FailsAt(files, opts, profile, 0, e) <==> Own(files, profile, opts) == Err(e);
    var next := Source(files, opts, profile);
    if next.Some? {
      LoadFailsExactlyWhen(files, opts, next.value, depth - 1, e);
    }
    hide Own, Walk, FailsAt, Source;
    forall n | 0 <= n <= depth && FailsAt(files, opts, profile, n, e)
      ensures Load(files, opts, profile, depth).value == Err(e)
    {
      if next.None? {
        FailsHere(files, opts, profile, n, e);
      } else if n > 0 {
        FailsLater(files, opts, profile, n - 1, e);
      }
    }
    if Load(files, opts, profile, depth).value == Err(e) && next.Some? {
      var n :| 0 <= n <= depth - 1 && FailsAt(files, opts, next.value, n, e);
      FailsLater(files, opts, profile, n, e);
    }
  }

  // ------------------------------------------------------------ credentials

  datatype Provider =
    | Static(keys: Creds)
    | Process(command: string)
    | Environment
    | InvalidSource
    | DefaultChain

  /** What a config without a source provides. */
  function Provides(cfg: Config): Provider {
    if cfg.creds.Keys? then Static(cfg.creds)
    else if cfg.credentialProcess != "" then Process(cfg.credentialProcess)
    else if cfg.credentialSource != "" then
      (if cfg.credentialSource == "Environment" then Environment else InvalidSource)
    else DefaultChain
  }

  /** `resolveCredsFromProfile`: a config with a source hands the question on. */
  function Resolve(chain: seq<Config>): Provider
    requires chain != []
  {
    if |chain| > 1 then Resolve(chain[1..]) else Provides(chain[0])
  }

  /** The credentials of a profile are decided by the last link of its chain alone. */
  lemma {:induction false} LastLinkDecides(chain: seq<Config>)
    requires chain != []
    ensures Resolve(chain) == Provides(chain[|chain| - 1])
  {
    if |chain| > 1 {
      LastLinkDecides(chain[1..]);
    }
  }

  /** The last credential process and source that the files name for the profile. */
  predicate NamesFor(files: seq<File>, opts: Options, profile: string, command: string, source: string) {
    && IsLast(files, profile, "credential_process", true, |files|, command)
    && if opts.extended then IsLast(files, profile, "credential_source", true, |files|, source) else source == ""
  }

  /** What a profile without a source gets, in the order in which it is looked for. */
  predicate Gets(files: seq<File>, profile: string, command: string, source: string, provider: Provider) {
    if exists f | f in files :: GivesKeys(f, profile)
    then provider.Static? && provider.keys.Keys? && CredsFrom(files, profile, |files|, provider.keys)
    else provider == (if command != "" then Process(command)
                      else if source == "" then DefaultChain
                      else if source == "Environment" then Environment else InvalidSource)
  }

  /**
   From files to credentials: what a loaded profile resolves to is what the files give the profile at the end of its
   sources, whatever the profiles before it hold.
   */
  lemma ResolvesToLastProfile(files: seq<File>, opts: Options, profile: string, depth: nat)
    returns (chain: seq<Config>, last: string, command: string, source: string)
    requires Load(files, opts, profile, depth).Some? && Load(files, opts, profile, depth).value.Ok?
    ensures Load(files, opts, profile, depth).value.value == chain && chain != []
    ensures Walk(files, opts, profile, |chain| - 1) == Some(last) && Source(files, opts, last) == None
    ensures NamesFor(files, opts, last, command, source) && Gets(files, last, command, source, Resolve(chain))
  {
    hide Load, Own, Walk, Source, Resolve, Provides, FieldsFrom, Malformed, NamesFor, Gets;
    chain := Load(files, opts, profile, depth).value.value;
    LoadedChainIsLinked(files, opts, profile, depth);
    ChainIsTheWalk(files, opts, profile, depth, |chain| - 1);
    LastLinkDecides(chain);
    var cfg := chain[|chain| - 1];
    last, command, source := cfg.profile, cfg.credentialProcess, cfg.credentialSource;
    var all := OwnExactly(files, last, opts);
    OwnKeepsProfile(files, opts, last);
    ProvidesWhatFilesGive(files, opts, cfg);
  }

  lemma ProvidesWhatFilesGive(files: seq<File>, opts: Options, cfg: Config)
    requires FieldsFrom(files, cfg.profile, opts, |files|, cfg) && cfg.sourceProfileName == ""
    ensures NamesFor(files, opts, cfg.profile, cfg.credentialProcess, cfg.credentialSource)
    ensures Gets(files, cfg.profile, cfg.credentialProcess, cfg.credentialSource, Provides(cfg))
  {
    hide IsLast, GivesKeys;
    if cfg.creds.Keys? {
      assert files[cfg.creds.file] in files;
    }
  }
}

/** The config object, whose methods overwrite its fields file by file and link it to its source. */
module SharedConfigObjects {
  import opened Prelude
  import opened SharedConfigs

  class SharedConfig {
    var profile: string
    var creds: Creds
    var credentialSource: string
    var credentialProcess: string
    var roleArn: string
    var sourceProfileName: string
    var region: string
    var sourceProfile: SharedConfig?
    /** The configs from this one to the last source, and the objects that hold them. */
    ghost var chain: seq<Config>
    ghost var Repr: set<object>

    constructor ()
      ensures Fields() == Zero("") && sourceProfile == null
    {
      profile, creds, credentialSource, credentialProcess := "", NoCreds, "", "";
      roleArn, sourceProfileName, region, sourceProfile := "", "", "", null;
      chain, Repr := [], {this};
    }

    ghost function Fields(): Config
      reads this
    {
      Config(profile, creds, credentialSource, credentialProcess, roleArn, sourceProfileName, region)
    }

    ghost predicate Valid()
      reads this, Repr
      decreases |chain|
    {
      && this in Repr && chain != [] && chain[0] == Fields()
      && (sourceProfile == null ==> chain == [Fields()])
      && (sourceProfile != null ==>
            && sourceProfile in Repr && sourceProfile.Repr <= Repr && this !in sourceProfile.Repr
            && chain == [Fields()] + sourceProfile.chain && sourceProfile.Valid())
    }

    method SetFromIniFile(s: Section, index: nat, opts: Options) returns (err: Option<Error>)
      modifies this
      ensures sourceProfile == old(sourceProfile)
      ensures match FromSection(old(Fields()), s, index, opts)
              case Err(e) => err == Some(e)
              case Ok(cfg) => err == None && Fields() == cfg
    {
      if opts.extended {
        roleArn := Updated(roleArn, s, "role_arn");
        sourceProfileName := Updated(sourceProfileName, s, "source_profile");
        credentialSource := Updated(credentialSource, s, "credential_source");
        region := Updated(region, s, "region");
        var v := Get(s, "s3_us_east_1_regional_endpoint");
        if v != "" && v !in opts.endpointSpellings {
          return Some(MalformedOption(index));
        }
      }
      credentialProcess := Updated(credentialProcess, s, "credential_process");
      var accessKey, secretKey := Get(s, "aws_access_key_id"), Get(s, "aws_secret_access_key");
      if accessKey != "" && secretKey != "" {
        creds := Keys(accessKey, secretKey, Get(s, "aws_session_token"), index);
      }
      var command := Get(s, "credential_process");
      if command != "" {
        credentialProcess := command;
      }
      var v := Get(s, "region");
      if v != "" {
        region := v;
      }
      return None;
    }

    method ValidateCredentialType() returns (err: Option<Error>)
      ensures err == if OneOrNone(Fields()) then None else Some(SourceCollision)
    {
      var ok := OneOrNoneOf([sourceProfileName != "", credentialSource != "", credentialProcess != ""]);
      if !ok {
        return Some(SourceCollision);
      }
      return None;
    }

    method ClearCredentialOptions()
      modifies this
      ensures Fields() == Cleared(old(Fields())) && sourceProfile == old(sourceProfile)
    {
      credentialSource := "";
      credentialProcess := "";
      creds := NoCreds;
    }

    /** The loop over the files; `err` is the error it stops at, or that of a profile no file defines. */
    method ReadFiles(files: seq<File>, opts: Options) returns (err: Option<Error>, skipped: nat)
      requires Fields() == Zero(profile) && sourceProfile == null
      modifies this
      ensures sourceProfile == null
      ensures match FromFiles(old(Fields()), files, 0, opts)
              case Err(e) => err == Some(e)
              case Ok(cfg) =>
                && err == None && Fields() == cfg && skipped <= |files|
                && (skipped == |files| <==> !Defined(files, old(profile)))
    {
      skipped := 0;
      var i := 0;
      while i < |files|
        invariant 0 <= i <= |files| && sourceProfile == null && profile == old(profile)
        invariant FromFiles(old(Fields()), files, 0, opts) == FromFiles(Fields(), files, i, opts)
        invariant skipped <= i
        invariant skipped == i <==> forall j | 0 <= j < i :: SectionOf(files[j], old(profile)).None?
      {
        ghost var cfg := Fields();
        var section := SectionOf(files[i], profile);
        if section.None? {
          skipped := skipped + 1;
        } else {
          err := SetFromIniFile(section.value, i, opts);
          if err.Some? {
            return;
          }
        }
        i := i + 1;
      }
      return None, skipped;
    }

    /** The part of `setFromIniFiles` before the source profile is followed. */
    method ReadOwn(profile: string, files: seq<File>, opts: Options) returns (err: Option<Error>)
      requires Fields() == Zero("") && sourceProfile == null
      modifies this
      ensures sourceProfile == null
      ensures match Own(files, profile, opts)
              case Err(e) => err == Some(e)
              case Ok(cfg) => err == None && Fields() == cfg
    {
      hide FromFiles, OneOrNone, Defined;
      this.profile := profile;
      var skipped;
      err, skipped := ReadFiles(files, opts);
      if err.Some? {
        return;
      }
      if skipped == |files| {
        if files != [] {
          return Some(ProfileNotFound(profile));
        }
        EmptyFiles(profile, opts);
        return None;
      }
      err := ValidateCredentialType();
      if err.None? && sourceProfileName != "" {
        ClearCredentialOptions();
      }
    }

    /**
     `setFromIniFiles` for a profile on which it returns, `depth` being a bound on its recursion: the linked objects
     hold the specified chain.
     */
    method SetFromIniFiles(profile: string, files: seq<File>, opts: Options, ghost depth: nat)
      returns (err: Option<Error>)
      requires Load(files, opts, profile, depth).Some?
      requires Fields() == Zero("") && sourceProfile == null
      modifies this
      ensures match Load(files, opts, profile, depth).value
              case Err(e) => err == Some(e)
              case Ok(configs) => err == None && Valid() && chain == configs && fresh(Repr - {this})
      decreases depth
    {
      hide Own;
      err := ReadOwn(profile, files, opts);
      if err.Some? {
        return;
      }
      if sourceProfileName == "" {
        chain, Repr := [Fields()], {this};
        return;
      }
      var source := new SharedConfig();
      err := source.SetFromIniFiles(sourceProfileName, files, opts, depth - 1);
      if err.Some? {
        return;
      }
      sourceProfile := source;
      chain, Repr := [Fields()] + source.chain, {this} + source.Repr;
    }
  }

  lemma EmptyFiles(profile: string, opts: Options)
    ensures FromFiles(Zero(profile), [], 0, opts) == Ok(Zero(profile)) && OneOrNone(Zero(profile))
  {
  }

  function CountTrue(bs: seq<bool>): nat {
    if bs == [] then 0 else CountTrue(bs[..|bs| - 1]) + (if bs[|bs| - 1] then 1 else 0)
  }

  lemma {:induction false} CountPrefix(bs: seq<bool>, n: nat)
    requires n <= |bs|
    ensures CountTrue(bs[..n]) <= CountTrue(bs)
    decreases |bs|
  {
    if n < |bs| {
      assert bs[..|bs| - 1][..n] == bs[..n];
      CountPrefix(bs[..|bs| - 1], n);
    } else {
      assert bs[..n] == bs;
    }
  }

  /** `oneOrNone`, which stops at the second true. */
  method OneOrNoneOf(bs: seq<bool>) returns (ok: bool)
    ensures ok <==> CountTrue(bs) <= 1
    ensures |bs| == 3 ==> (ok <==> !(bs[0] && bs[1]) && !(bs[0] && bs[2]) && !(bs[1] && bs[2]))
  {
    ThreeFlags(bs);
    var count := 0;
    for i := 0 to |bs|
      invariant count == CountTrue(bs[..i]) <= 1
    {
      assert bs[..i + 1][..i] == bs[..i];
      if bs[i] {
        count := count + 1;
        if count > 1 {
          CountPrefix(bs, i + 1);
          return false;
        }
      }
    }
    assert bs[..|bs|] == bs;
    return true;
  }

  lemma ThreeFlags(bs: seq<bool>)
    ensures |bs| == 3 ==>
              (CountTrue(bs) <= 1 <==> !(bs[0] && bs[1]) && !(bs[0] && bs[2]) && !(bs[1] && bs[2]))
  {
    if |bs| == 3 {
      assert bs[..2][..1] == [bs[0]] && bs[..2][1] == bs[1] && bs[..1][..0] == [];
      assert CountTrue([bs[0]]) == if bs[0] then 1 else 0;
      assert CountTrue(bs[..2]) == CountTrue([bs[0]]) + if bs[1] then 1 else 0;
    }
  }
}
