/** The voting key folder of a node, and the run that keeps it supplied with key files. */
module VotingService {
  import opened Basics
  import opened VotingKeys
  import opened VotingFile
  import opened VotingSchedule

  /** A folder with its files only: names and contents. */
  type Folder = map<string, seq<Byte>>

  datatype VotingKeyFile = VotingKeyFile(key: VotingKey, filename: string)

  const PREFIX := "private_key_tree"
  const SUFFIX := ".dat"
  const METADATA := "metadata.yml"
  const LIFETIME_ERROR := "votingKeyDesiredFutureLifetime cannot be greater than votingKeyDesiredLifetime"

  function FileName(n: nat): string {
    PREFIX + Decimal(n) + SUFFIX
  }

  predicate IsVotingFileName(name: string) {
    PREFIX <= name && |SUFFIX| <= |name| && name[|name| - |SUFFIX|..] == SUFFIX
  }

  lemma {:induction false} FileNames(m: nat, n: nat)
    ensures FileName(m) == FileName(n) ==> m == n
    ensures IsVotingFileName(FileName(m))
    ensures FileName(m) != METADATA
  {
    var a, b := FileName(m), FileName(n);
    assert a[|PREFIX|..|a| - |SUFFIX|] == Decimal(m) && b[|PREFIX|..|b| - |SUFFIX|] == Decimal(n);
    DecimalIsInjective(m, n);
    assert a[0] == 'p' && METADATA[0] == 'm';
    assert a[..|PREFIX|] == PREFIX;
  }

  // ----- loading -----

  /** Reads the voting files among the listed names; one unreadable file fails the whole load. */
  function ReadListed(folder: Folder, listing: seq<string>): Result<seq<VotingKeyFile>>
    requires forall name | name in listing :: name in folder
  {
    if |listing| == 0 then Ok([])
    else if !IsVotingFileName(listing[0]) then ReadListed(folder, listing[1..])
    else
      match ReadVotingFile(folder[listing[0]])
      case Err(e) => Err(e)
      case Ok(key) =>
        match ReadListed(folder, listing[1..])
        case Err(e) => Err(e)
        case Ok(rest) => Ok([VotingKeyFile(key, listing[0])] + rest)
  }

  function InsertByStart(file: VotingKeyFile, sorted: seq<VotingKeyFile>): seq<VotingKeyFile> {
    if |sorted| == 0 || file.key.startEpoch <= sorted[0].key.startEpoch then [file] + sorted
    else [sorted[0]] + InsertByStart(file, sorted[1..])
  }

  /** A stable sort by start epoch. */
  function SortByStart(files: seq<VotingKeyFile>): seq<VotingKeyFile> {
    if |files| == 0 then [] else InsertByStart(files[0], SortByStart(files[1..]))
  }

  function LoadVotingFiles(folder: Folder, listing: seq<string>): Result<seq<VotingKeyFile>>
    requires forall name | name in listing :: name in folder
  {
    match ReadListed(folder, listing)
    case Err(e) => Err(e)
    case Ok(files) => Ok(SortByStart(files))
  }

  ghost predicate SortedByStart(files: seq<VotingKeyFile>) {
    forall i, j | 0 <= i < j < |files| :: files[i].key.startEpoch <= files[j].key.startEpoch
  }

  lemma {:induction false} InsertMembers(file: VotingKeyFile, sorted: seq<VotingKeyFile>)
    ensures multiset(InsertByStart(file, sorted)) == multiset(sorted) + multiset{file}
    ensures forall f :: f in InsertByStart(file, sorted) <==> f in sorted || f == file
  {
    if |sorted| != 0 && file.key.startEpoch > sorted[0].key.startEpoch {
      InsertMembers(file, sorted[1..]);
      assert sorted == [sorted[0]] + sorted[1..];
    }
  }

  lemma {:induction false} InsertSorts(file: VotingKeyFile, sorted: seq<VotingKeyFile>)
    requires SortedByStart(sorted)
    ensures SortedByStart(InsertByStart(file, sorted))
  {
    if |sorted| != 0 && file.key.startEpoch > sorted[0].key.startEpoch {
      InsertSorts(file, sorted[1..]);
      InsertMembers(file, sorted[1..]);
      PrependSmallest(sorted[0], InsertByStart(file, sorted[1..]));
    }
  }

  lemma PrependSmallest(first: VotingKeyFile, rest: seq<VotingKeyFile>)
    requires SortedByStart(rest) && forall f | f in rest :: first.key.startEpoch <= f.key.startEpoch
    ensures SortedByStart([first] + rest)
  {
  }

  lemma {:induction false} SortSorts(files: seq<VotingKeyFile>)
    ensures SortedByStart(SortByStart(files))
    ensures multiset(SortByStart(files)) == multiset(files)
  {
    if |files| != 0 {
      SortSorts(files[1..]);
      InsertSorts(files[0], SortByStart(files[1..]));
      InsertMembers(files[0], SortByStart(files[1..]));
      assert files == [files[0]] + files[1..];
    }
  }

  // ----- folders written by runs -----

  /** The folder holds exactly these keys, in order, one to a file, under the names the runs give. */
  ghost predicate Holds(folder: Folder, keys: seq<VotingKey>) {
    && Ordered(keys)
    && (forall name :: name in folder <==> exists i | 1 <= i <= |keys| :: name == FileName(i))
    && (forall i | 1 <= i <= |keys| :: FileName(i) in folder && ReadVotingFile(folder[FileName(i)]) == Ok(keys[i - 1]))
  }

  function Files(keys: seq<VotingKey>): seq<VotingKeyFile> {
    seq(|keys|, i requires 0 <= i < |keys| => VotingKeyFile(keys[i], FileName(i + 1)))
  }

  /** How an operating system lists a folder: every name once, in some order. */
  ghost predicate Enumerates(listing: seq<string>, names: set<string>) {
    && (forall name :: name in listing <==> name in names)
    && (forall i, j | 0 <= i < j < |listing| :: listing[i] != listing[j])
  }

  lemma {:induction false} ReadListedHeld(folder: Folder, keys: seq<VotingKey>, listing: seq<string>)
    requires Holds(folder, keys)
    requires forall name | name in listing :: name in folder
    ensures var r := ReadListed(folder, listing);
      && r.Ok? && |r.value| == |listing|
      && forall i | 0 <= i < |listing| :: r.value[i].filename == listing[i] && r.value[i] in Files(keys)
  {
    hide FileName, ReadVotingFile, IsVotingFileName;
    if |listing| != 0 {
      ReadListedHeld(folder, keys, listing[1..]);
      assert listing[0] in listing && listing[0] in folder;
      var i :| 1 <= i <= |keys| && listing[0] == FileName(i);
      FileNames(i, i);
      assert Files(keys)[i - 1] == VotingKeyFile(keys[i - 1], listing[0]);
    }
  }

  /** A sorted list without repetitions and a strictly sorted one agree when they have the same elements. */
  lemma {:induction false} SortedIsUnique(a: seq<VotingKeyFile>, b: seq<VotingKeyFile>)
    requires SortedByStart(a) && forall i, j | 0 <= i < j < |a| :: a[i] != a[j]
    requires forall i, j | 0 <= i < j < |b| :: b[i].key.startEpoch < b[j].key.startEpoch
    requires forall f :: f in a <==> f in b
    ensures a == b
  {
    if |b| != 0 {
      assert b[0] in b;
    }
    if |a| != 0 {
      assert a[0] in b && |b| > 0 && b[0] in a;
      assert a[0] == b[0];
      forall f
        ensures f in a[1..] <==> f in b[1..]
      {
        assert f in a <==> f == a[0] || f in a[1..];
        assert f in b <==> f == b[0] || f in b[1..];
      }
      SortedIsUnique(a[1..], b[1..]);
    }
  }

  /** A held folder loads as its keys in epoch order, in whatever order the system lists it. */
  lemma {:induction false} LoadHeld(folder: Folder, keys: seq<VotingKey>, listing: seq<string>)
    requires Holds(folder, keys) && Enumerates(listing, folder.Keys)
    ensures LoadVotingFiles(folder, listing) == Ok(Files(keys))
  {
    ReadListedHeld(folder, keys, listing);
    var read := ReadListed(folder, listing).value;
    SortSorts(read);
    var sorted := SortByStart(read);
    SameElements(folder, keys, listing, read);
    SortKeepsElements(read);
    forall i, j | 0 <= i < j < |keys|
      ensures Files(keys)[i].key.startEpoch < Files(keys)[j].key.startEpoch
    {
      assert keys[i] in keys;
    }
    SortedIsUnique(sorted, Files(keys));
  }

  lemma SameElements(folder: Folder, keys: seq<VotingKey>, listing: seq<string>, read: seq<VotingKeyFile>)
    requires Holds(folder, keys) && Enumerates(listing, folder.Keys) && |read| == |listing|
    requires forall i | 0 <= i < |listing| :: read[i].filename == listing[i] && read[i] in Files(keys)
    ensures forall f :: f in read <==> f in Files(keys)
    ensures forall i, j | 0 <= i < j < |read| :: read[i] != read[j]
  {
    hide FileName;
    forall i | 0 <= i < |keys|
      ensures Files(keys)[i] in read
    {
      assert FileName(i + 1) in folder.Keys;
      var j :| 0 <= j < |listing| && listing[j] == FileName(i + 1);
      NamedFile(keys, read[j], i);
      assert read[j] in read;
    }
  }

  lemma NamedFile(keys: seq<VotingKey>, f: VotingKeyFile, i: nat)
    requires f in Files(keys) && i < |keys| && f.filename == FileName(i + 1)
    ensures f == Files(keys)[i]
  {
    var m :| 0 <= m < |keys| && Files(keys)[m] == f;
    FileNames(i + 1, m + 1);
  }

  lemma SortKeepsElements(files: seq<VotingKeyFile>)
    requires forall i, j | 0 <= i < j < |files| :: files[i] != files[j]
    ensures forall f :: f in SortByStart(files) <==> f in files
    ensures forall i, j | 0 <= i < j < |SortByStart(files)| :: SortByStart(files)[i] != SortByStart(files)[j]
  {
    SortSorts(files);
    var sorted := SortByStart(files);
    forall f
      ensures f in sorted <==> f in files
    {
      assert f in sorted <==> f in multiset(sorted);
      assert f in files <==> f in multiset(files);
    }
    OnceEach(files);
    OnceEachBack(sorted);
  }

  lemma {:induction false} OnceEach(files: seq<VotingKeyFile>)
    requires forall i, j | 0 <= i < j < |files| :: files[i] != files[j]
    ensures forall f :: multiset(files)[f] <= 1
  {
    if |files| != 0 {
      OnceEach(files[1..]);
      assert files == [files[0]] + files[1..];
      assert files[0] !in files[1..];
      assert files[0] !in multiset(files[1..]);
    }
  }

  lemma OnceEachBack(files: seq<VotingKeyFile>)
    requires forall f :: multiset(files)[f] <= 1
    ensures forall i, j | 0 <= i < j < |files| :: files[i] != files[j]
  {
    forall i, j | 0 <= i < j < |files|
      ensures files[i] != files[j]
    {
      var front, back := files[..j], files[j..];
      assert files == front + back;
      assert files[i] == front[i] && files[j] == back[0];
      assert multiset(files) == multiset(front) + multiset(back);
      assert files[i] in multiset(front) && files[j] in multiset(back);
      assert multiset(files)[files[i]] <= 1;
    }
  }

  // ----- the run -----

  /** What a run is given: the configuration, the account keys it draws, and how the system lists folders. */
  datatype Context = Context(voting: bool, autoUpdate: bool, lastKnownEpoch: nat, settings: Settings,
                             crypto: Crypto, secret: Key, random: nat -> Key, list: set<string> -> seq<string>)

  datatype Outcome = Outcome(folder: Folder, voting: seq<VotingKeyFile>, result: Result<bool>)

  ghost predicate ListsFolders(list: set<string> -> seq<string>) {
    forall names :: Enumerates(list(names), names)
  }

  /** The first epoch given that is not zero, and 1 in the end. */
  function NetworkEpoch(current: Option<nat>, lastKnown: nat): nat {
    if current.Some? && current.value != 0 then current.value
    else if lastKnown != 0 then lastKnown
    else 1
  }

  function KeysOf(files: seq<VotingKeyFile>): seq<VotingKey> {
    seq(|files|, i requires 0 <= i < |files| => files[i].key)
  }

  function Drawn(ctx: Context): (r: seq<seq<Byte>>)
    ensures |r| == ctx.settings.lifetime && AllKeys(r, |r|)
  {
    seq(ctx.settings.lifetime, i requires 0 <= i => ctx.random(i))
  }

  /** The bytes of the file that covers the `lifetime` epochs after `maxEnd`. */
  ghost function NewFile(ctx: Context, maxEnd: nat): seq<Byte> {
    FileBytes(ctx.crypto, ctx.secret, maxEnd + 1, maxEnd + ctx.settings.lifetime, Drawn(ctx))
  }

  class VotingKeysFolder {
    var files: Folder
  }

  class NodeAccount {
    var voting: seq<VotingKeyFile>
  }

  /** Storing one more key file and loading the folder again. */
  ghost function Store(ctx: Context, base: Folder, files: seq<VotingKeyFile>, maxEnd: nat): Outcome
    requires ListsFolders(ctx.list)
  {
    var grown := base[FileName(|files| + 1) := NewFile(ctx, maxEnd)];
    match LoadVotingFiles(grown, ctx.list(grown.Keys))
    case Err(e) => Outcome(grown, files, Err(e))
    case Ok(again) => Outcome(grown, again, Ok(true))
  }

  function Updating(ctx: Context, update: Option<bool>): bool {
    if update.None? then ctx.autoUpdate else update.value
  }

  /** One run as a step on the folder and the account. */
  ghost function Step(ctx: Context, folder: Folder, voting: seq<VotingKeyFile>, current: Option<nat>,
                      update: Option<bool>): Outcome
    requires ListsFolders(ctx.list)
  {
    var epoch := NetworkEpoch(current, ctx.lastKnownEpoch);
    if !ctx.voting then Outcome(folder, voting, Ok(false))
    else if ctx.settings.futureLifetime > ctx.settings.lifetime then Outcome(folder, voting, Err(LIFETIME_ERROR))
    else
      var base := folder - {METADATA};
      match LoadVotingFiles(base, ctx.list(base.Keys))
      case Err(e) => Outcome(base, voting, Err(e))
      case Ok(files) =>
        if Creates(KeysOf(files), epoch, Updating(ctx, update), ctx.settings)
        then Store(ctx, base, files, MaxEnd(KeysOf(files), epoch))
        else Outcome(base, files, Ok(false))
  }

  method Run(ctx: Context, account: NodeAccount, folder: VotingKeysFolder, current: Option<nat>, update: Option<bool>)
    returns (r: Result<bool>)
    requires ListsFolders(ctx.list)
    modifies account, folder
    ensures Outcome(folder.files, account.voting, r)
        == Step(ctx, old(folder.files), old(account.voting), current, update)
  {
    hide ReadListed, SortByStart, FileName, LoadVotingFiles, FileBytes, Store, Drawn;
    var networkEpoch := NetworkEpoch(current, ctx.lastKnownEpoch);
    var updating := Updating(ctx, update);
    if !ctx.voting {
      return Ok(false);
    }
    if ctx.settings.futureLifetime > ctx.settings.lifetime {
      return Err(LIFETIME_ERROR);
    }
    folder.files := folder.files - {METADATA};
    var loaded := LoadVotingFiles(folder.files, ctx.list(folder.files.Keys));
    if loaded.Err? {
      return Err(loaded.error);
    }
    var currentVotingFiles := loaded.value;
    var lastEnd := if |currentVotingFiles| == 0 then 0 else currentVotingFiles[|currentVotingFiles| - 1].key.endEpoch;
    var maxEnd := if lastEnd >= networkEpoch - 1 then lastEnd else networkEpoch - 1;
    account.voting := currentVotingFiles;
    if maxEnd > networkEpoch + ctx.settings.futureLifetime || (!updating && |currentVotingFiles| > 0) {
      return Ok(false);
    }
    r := CreateAndReload(ctx, account, folder, maxEnd);
  }

  /** The creating half of a run: the file is written under the next number, then everything is loaded again. */
  method CreateAndReload(ctx: Context, account: NodeAccount, folder: VotingKeysFolder, maxEnd: nat)
    returns (r: Result<bool>)
    requires ListsFolders(ctx.list)
    modifies account, folder
    ensures Outcome(folder.files, account.voting, r) == Store(ctx, old(folder.files), old(account.voting), maxEnd)
  {
    hide ReadListed, SortByStart, FileName, LoadVotingFiles, FileBytes;
    var startEpoch := maxEnd + 1;
    var endEpoch := maxEnd + ctx.settings.lifetime;
    var name := FileName(|account.voting| + 1);
    var created := CreateVotingFile(ctx.crypto, ctx.secret, startEpoch, endEpoch, Drawn(ctx));
    folder.files := folder.files[name := created.value[..]];
    var loaded := LoadVotingFiles(folder.files, ctx.list(folder.files.Keys));
    if loaded.Err? {
      return Err(loaded.error);
    }
    account.voting := loaded.value;
    return Ok(true);
  }

  /** The key in the file a run creates. */
  function CreatedKey(ctx: Context, keys: seq<VotingKey>, epoch: nat): VotingKey {
    NextKey(keys, epoch, ctx.settings, RootKey(ctx))
  }

  function RootKey(ctx: Context): string {
    ToHex(ctx.crypto.publicKey(ctx.secret))
  }

  lemma {:induction false} NewFileReadsBack(ctx: Context, keys: seq<VotingKey>, epoch: nat)
    requires 1 <= epoch && MaxEnd(keys, epoch) + ctx.settings.lifetime <= MAX_SAFE_INTEGER
    requires ctx.settings.lifetime >= 1
    ensures ReadVotingFile(NewFile(ctx, MaxEnd(keys, epoch))) == Ok(CreatedKey(ctx, keys, epoch))
  {
    hide FileBytes, ReadVotingFile, ToHex;
    var maxEnd := MaxEnd(keys, epoch);
    ReadBack(ctx.crypto, ctx.secret, maxEnd + 1, maxEnd + ctx.settings.lifetime, Drawn(ctx), NewFile(ctx, maxEnd));
  }

  /** The next name is free, and storing a readable file under it makes the folder hold one key more. */
  lemma {:induction false} HoldsOneMore(folder: Folder, keys: seq<VotingKey>, key: VotingKey, content: seq<Byte>)
    requires Holds(folder, keys) && Ordered(keys + [key]) && ReadVotingFile(content) == Ok(key)
    ensures Holds(folder[FileName(|keys| + 1) := content], keys + [key])
  {
    hide FileName, ReadVotingFile;
    forall i
      ensures FileName(i) == FileName(|keys| + 1) && i >= 0 ==> i == |keys| + 1
    {
      if i >= 0 {
        FileNames(i, |keys| + 1);
      }
    }
  }

  lemma StoreHolds(ctx: Context, base: Folder, keys: seq<VotingKey>, epoch: nat)
    requires ListsFolders(ctx.list) && Holds(base, keys)
    requires 1 <= epoch && 1 <= ctx.settings.lifetime && Ordered(keys + [CreatedKey(ctx, keys, epoch)])
    requires MaxEnd(keys, epoch) + ctx.settings.lifetime <= MAX_SAFE_INTEGER
    ensures var o := Store(ctx, base, Files(keys), MaxEnd(keys, epoch));
      && Holds(o.folder, keys + [CreatedKey(ctx, keys, epoch)])
      && o.voting == Files(keys + [CreatedKey(ctx, keys, epoch)])
      && o.result == Ok(true)
      && forall name | name in base :: name in o.folder && o.folder[name] == base[name]
  {
    hide FileName, LoadVotingFiles, ReadVotingFile, FileBytes, Holds, Files;
    var key := CreatedKey(ctx, keys, epoch);
    var content := NewFile(ctx, MaxEnd(keys, epoch));
    NewFileReadsBack(ctx, keys, epoch);
    HoldsOneMore(base, keys, key, content);
    NextNameIsFree(base, keys);
    FilesCount(keys);
    var grown := base[FileName(|keys| + 1) := content];
    LoadHeld(grown, keys + [key], ctx.list(grown.Keys));
  }

  lemma FilesCount(keys: seq<VotingKey>)
    ensures |Files(keys)| == |keys| && KeysOf(Files(keys)) == keys
  {
  }

  /** On a folder written by runs, a run is exactly a step of the schedule: the folder then holds, and
      the account lists, the scheduled keys; the metadata file is gone and nothing else is touched. */
  lemma {:induction false} RunFollowsSchedule(ctx: Context, folder: Folder, voting: seq<VotingKeyFile>,
                                              keys: seq<VotingKey>, current: Option<nat>, update: Option<bool>)
    requires ListsFolders(ctx.list) && ctx.voting
    requires 1 <= ctx.settings.lifetime && ctx.settings.futureLifetime <= ctx.settings.lifetime
    requires Holds(folder - {METADATA}, keys)
    requires MaxEnd(keys, NetworkEpoch(current, ctx.lastKnownEpoch)) + ctx.settings.lifetime <= MAX_SAFE_INTEGER
    ensures var epoch, updating := NetworkEpoch(current, ctx.lastKnownEpoch), Updating(ctx, update);
      var after := RunOnce(keys, epoch, updating, ctx.settings, RootKey(ctx));
      var o := Step(ctx, folder, voting, current, update);
      && Holds(o.folder, after) && o.voting == Files(after)
      && o.result == Ok(Creates(keys, epoch, updating, ctx.settings))
      && forall name | name in folder && name != METADATA :: name in o.folder && o.folder[name] == folder[name]
  {
    hide LoadVotingFiles, Holds, Files, Store, Creates;
    var epoch, updating := NetworkEpoch(current, ctx.lastKnownEpoch), Updating(ctx, update);
    var base := folder - {METADATA};
    LoadHeld(base, keys, ctx.list(base.Keys));
    FilesCount(keys);
    HeldKeysAreOrdered(base, keys);
    RunKeepsOrder(keys, epoch, updating, ctx.settings, RootKey(ctx));
    if Creates(keys, epoch, updating, ctx.settings) {
      StoreHolds(ctx, base, keys, epoch);
    }
  }

  lemma HeldKeysAreOrdered(folder: Folder, keys: seq<VotingKey>)
    requires Holds(folder, keys)
    ensures Ordered(keys) && folder - {METADATA} == folder
  {
    hide FileName;
    forall name | name in folder
      ensures name != METADATA
    {
      var i :| 1 <= i <= |keys| && name == FileName(i);
      FileNames(i, i);
    }
  }

  // ----- any sequence of runs, from an empty folder -----

  datatype RunInput = RunInput(ctx: Context, current: Option<nat>, update: Option<bool>) {
    function Epoch(): nat {
      NetworkEpoch(current, ctx.lastKnownEpoch)
    }
  }

  /** The schedule's account of the runs: the keys they have created. */
  function KeysAfter(runs: seq<RunInput>): seq<VotingKey> {
    if |runs| == 0 then []
    else
      var last := runs[|runs| - 1];
      RunOnce(KeysAfter(runs[..|runs| - 1]), last.Epoch(), Updating(last.ctx, last.update), last.ctx.settings,
              RootKey(last.ctx))
  }

  ghost predicate Valid(runs: seq<RunInput>) {
    forall i | 0 <= i < |runs| :: ValidRun(runs[i]) && FitsAfter(runs[i], KeysAfter(runs[..i]))
  }

  ghost predicate ValidRun(r: RunInput) {
    && ListsFolders(r.ctx.list) && r.ctx.voting
    && 1 <= r.ctx.settings.lifetime && r.ctx.settings.futureLifetime <= r.ctx.settings.lifetime
  }

  /** The epochs stay in the range a JavaScript number holds exactly. */
  predicate FitsAfter(r: RunInput, keys: seq<VotingKey>) {
    MaxEnd(keys, r.Epoch()) + r.ctx.settings.lifetime <= MAX_SAFE_INTEGER
  }

  ghost function FolderAfter(runs: seq<RunInput>): Folder
    requires Valid(runs)
  {
    if |runs| == 0 then map[]
    else
      var init, last := runs[..|runs| - 1], runs[|runs| - 1];
      ValidInit(runs);
      Step(last.ctx, FolderAfter(init), [], last.current, last.update).folder
  }

  lemma ValidInit(runs: seq<RunInput>)
    requires Valid(runs) && |runs| > 0
    ensures Valid(runs[..|runs| - 1])
    ensures ValidRun(runs[|runs| - 1]) && FitsAfter(runs[|runs| - 1], KeysAfter(runs[..|runs| - 1]))
  {
    var init := runs[..|runs| - 1];
    forall i | 0 <= i < |init|
      ensures ValidRun(init[i]) && FitsAfter(init[i], KeysAfter(init[..i]))
    {
      assert init[..i] == runs[..i] && init[i] == runs[i];
    }
  }

  /** After any runs, at whatever epochs: the folder holds the scheduled keys, disjoint and in order, in
      files 1 to n, so that the name of file n + 1 is free. */
  lemma {:induction false} RunsFillTheFolder(runs: seq<RunInput>)
    requires Valid(runs)
    ensures var keys := KeysAfter(runs);
      && Holds(FolderAfter(runs), keys) && Sound(keys)
      && (forall k | k in keys :: k.endEpoch <= LastEnd(keys))
      && FileName(|keys| + 1) !in FolderAfter(runs)
  {
    hide FileName, Step, RunOnce, KeysAfter, FolderAfter, Holds, Ordered, Valid;
    var keys := KeysAfter(runs);
    RunsHold(runs);
    HeldKeysAreOrdered(FolderAfter(runs), keys);
    OrderedIsSound(keys);
    LastIsGreatest(keys);
    NextNameIsFree(FolderAfter(runs), keys);
  }

  lemma {:induction false} RunsHold(runs: seq<RunInput>)
    requires Valid(runs)
    ensures Holds(FolderAfter(runs), KeysAfter(runs))
  {
    hide FileName, Step, RunOnce, Holds;
    if |runs| == 0 {
      EmptyHolds();
    } else {
      var init, last := runs[..|runs| - 1], runs[|runs| - 1];
      ValidInit(runs);
      RunsHold(init);
      HeldKeysAreOrdered(FolderAfter(init), KeysAfter(init));
      RunFollowsSchedule(last.ctx, FolderAfter(init), [], KeysAfter(init), last.current, last.update);
    }
  }

  lemma EmptyHolds()
    ensures Holds(map[], [])
  {
  }

  lemma NextNameIsFree(folder: Folder, keys: seq<VotingKey>)
    requires Holds(folder, keys)
    ensures FileName(|keys| + 1) !in folder
  {
    hide FileName;
    forall i | 1 <= i <= |keys|
      ensures FileName(i) != FileName(|keys| + 1)
    {
      FileNames(i, |keys| + 1);
    }
  }

  ghost predicate NeverBack(runs: seq<RunInput>) {
    forall i, j | 0 <= i < j < |runs| :: runs[i].Epoch() <= runs[j].Epoch()
  }

  lemma NeverBackInit(runs: seq<RunInput>)
    requires NeverBack(runs) && |runs| > 0
    ensures var init := runs[..|runs| - 1];
      NeverBack(init) && (|init| > 0 ==> init[|init| - 1].Epoch() <= runs[|runs| - 1].Epoch())
  {
  }

  /** After runs at epochs that never went back, the last of them updating: each epoch from the present one to
      the end of the configured future is in exactly one file, except that the last of these epochs is only
      when files live longer than that future or some file was alive before the last run. */
  lemma {:induction false} RunsCoverTheFuture(runs: seq<RunInput>, e: int)
    requires Valid(runs) && |runs| > 0
    requires NeverBack(runs)
    requires var last := runs[|runs| - 1]; Updating(last.ctx, last.update)
    requires var last := runs[|runs| - 1]; last.Epoch() <= e <= last.Epoch() + last.ctx.settings.futureLifetime
    ensures var last, s := runs[|runs| - 1], runs[|runs| - 1].ctx.settings;
      InExactlyOne(KeysAfter(runs), e)
      <==> e < last.Epoch() + s.futureLifetime || s.lifetime > s.futureLifetime
           || LastEnd(KeysAfter(runs[..|runs| - 1])) >= last.Epoch()
  {
    hide RunOnce, History, InExactlyOne, Valid, NeverBack, LastEnd;
    var init, last := runs[..|runs| - 1], runs[|runs| - 1];
    ValidInit(runs);
    NeverBackInit(runs);
    RunsKeepHistory(init, last.Epoch());
    UpdatedRunCovers(KeysAfter(init), last.Epoch(), last.Epoch(), last.ctx.settings, RootKey(last.ctx), e);
  }

  lemma {:induction false} RunsKeepHistory(runs: seq<RunInput>, epoch: nat)
    requires Valid(runs)
    requires NeverBack(runs) && (|runs| > 0 ==> runs[|runs| - 1].Epoch() <= epoch)
    ensures History(KeysAfter(runs), epoch)
  {
    hide RunOnce, History;
    if |runs| == 0 {
      NothingYet(epoch);
    }
    if |runs| != 0 {
      var init, last := runs[..|runs| - 1], runs[|runs| - 1];
      ValidInit(runs);
      RunsKeepHistory(init, last.Epoch());
      RunKeepsHistory(KeysAfter(init), last.Epoch(), last.Epoch(), Updating(last.ctx, last.update), last.ctx.settings,
                      RootKey(last.ctx));
      HistoryLater(KeysAfter(runs), last.Epoch(), epoch);
    }
  }

  lemma NothingYet(epoch: int)
    ensures History([], epoch)
  {
  }

  lemma HistoryLater(files: seq<VotingKey>, before: int, epoch: int)
    requires History(files, before) && before <= epoch
    ensures History(files, epoch)
  {
  }
}
