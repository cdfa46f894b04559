/** What a run of the voting service does, said of the inputs and the folder alone. */
module VotingRunLaws {
  import opened Basics
  import opened VotingKeys
  import opened VotingFile
  import opened VotingSchedule
  import opened VotingService

  // ----- loading a folder -----

  predicate NamedAsKeyFile(name: string) {
    && |name| >= 20 && name[..16] == "private_key_tree" && name[|name| - 4..] == ".dat"
  }

  lemma KeyFileNames(name: string)
    ensures IsVotingFileName(name) <==> NamedAsKeyFile(name)
  {
    if IsVotingFileName(name) {
      assert name[..16] == PREFIX && name[|name| - 4..] == SUFFIX;
      assert name[|name| - 4] == SUFFIX[0];
      forall i | 0 <= i < 16
        ensures name[i] != '.'
      {
        assert name[i] == PREFIX[i];
      }
    }
  }

  predicate IsListed(f: VotingKeyFile, folder: Folder, listing: seq<string>) {
    && f.filename in listing && f.filename in folder
    && NamedAsKeyFile(f.filename)
    && ReadVotingFile(folder[f.filename]) == Ok(f.key)
  }

  /** The load fails exactly when some key file listed cannot be read. Otherwise it gives the key of every listed
      key file with its name, and nothing else. */
  lemma {:induction false} LoadsExactly(folder: Folder, listing: seq<string>)
    requires forall name | name in listing :: name in folder
    ensures var r := LoadVotingFiles(folder, listing);
      && (r.Err? <==> exists name | name in listing :: NamedAsKeyFile(name) && ReadVotingFile(folder[name]).Err?)
      && (r.Ok? ==> SortedByStart(r.value) && forall f :: f in r.value <==> IsListed(f, folder, listing))
  {
    hide ReadVotingFile, NamedAsKeyFile, IsListed;
    ReadsExactly(folder, listing);
    if ReadListed(folder, listing).Ok? {
      var files := ReadListed(folder, listing).value;
      SortSorts(files);
      forall f
        ensures f in SortByStart(files) <==> f in files
      {
        assert f in SortByStart(files) <==> f in multiset(SortByStart(files));
        assert f in files <==> f in multiset(files);
      }
    }
  }

  lemma {:induction false} ReadsExactly(folder: Folder, listing: seq<string>)
    requires forall name | name in listing :: name in folder
    ensures var r := ReadListed(folder, listing);
      && (r.Err? <==> exists name | name in listing :: NamedAsKeyFile(name) && ReadVotingFile(folder[name]).Err?)
      && (r.Ok? ==> forall f :: f in r.value <==> IsListed(f, folder, listing))
  {
    hide ReadVotingFile, NamedAsKeyFile, IsVotingFileName;
    if |listing| != 0 {
      var rest := listing[1..];
      assert listing == [listing[0]] + rest;
      ReadsExactly(folder, rest);
      KeyFileNames(listing[0]);
    }
  }

  function StartingAt(files: seq<VotingKeyFile>, epoch: int): seq<VotingKeyFile> {
    if |files| == 0 then []
    else (if files[0].key.startEpoch == epoch then [files[0]] else []) + StartingAt(files[1..], epoch)
  }

  /** Files that start at the same epoch keep the order in which the system listed them. */
  lemma {:induction false} SortIsStable(files: seq<VotingKeyFile>, epoch: int)
    ensures StartingAt(SortByStart(files), epoch) == StartingAt(files, epoch)
  {
    hide InsertByStart, SortedByStart, StartingAt;
    if |files| == 0 {
      assert SortByStart(files) == files;
    } else {
      FirstStart(files, epoch);
      SortIsStable(files[1..], epoch);
      SortSorts(files[1..]);
      InsertIsStable(files[0], SortByStart(files[1..]), epoch);
    }
  }

  lemma LaterStarts(later: VotingKeyFile, first: VotingKeyFile, epoch: int)
    requires later.key.startEpoch > first.key.startEpoch
    ensures StartingAt([later], epoch) == [] || StartingAt([first], epoch) == []
  {
  }

  lemma FirstStart(files: seq<VotingKeyFile>, epoch: int)
    requires |files| > 0
    ensures StartingAt(files, epoch) == StartingAt([files[0]], epoch) + StartingAt(files[1..], epoch)
  {
  }

  lemma {:induction false} InsertIsStable(file: VotingKeyFile, sorted: seq<VotingKeyFile>, epoch: int)
    requires SortedByStart(sorted)
    ensures StartingAt(InsertByStart(file, sorted), epoch) == StartingAt([file], epoch) + StartingAt(sorted, epoch)
  {
    if |sorted| == 0 || file.key.startEpoch <= sorted[0].key.startEpoch {
      FirstStart([file] + sorted, epoch);
      assert ([file] + sorted)[1..] == sorted;
    } else {
      InsertIsStable(file, sorted[1..], epoch);
      var more := InsertByStart(file, sorted[1..]);
      FirstStart([sorted[0]] + more, epoch);
      FirstStart(sorted, epoch);
      assert ([sorted[0]] + more)[1..] == more;
      LaterStarts(file, sorted[0], epoch);
    }
  }

  // ----- one run -----

  /** When a run changes nothing, or next to nothing: a node that does not vote is passed over, a desired future
      that no file can reach is refused, and one unreadable key file stops the run when only the metadata
      file is gone. */
  lemma {:induction false} RunsThatStop(ctx: Context, folder: Folder, voting: seq<VotingKeyFile>,
                                        current: Option<nat>, update: Option<bool>)
    requires ListsFolders(ctx.list)
    ensures var o := Step(ctx, folder, voting, current, update);
      && (!ctx.voting ==> o == Outcome(folder, voting, Ok(false)))
      && (ctx.voting && ctx.settings.futureLifetime > ctx.settings.lifetime ==>
            o.result.Err? && o.folder == folder && o.voting == voting)
      && (ctx.voting && ctx.settings.futureLifetime <= ctx.settings.lifetime
          && (exists name | name in folder :: NamedAsKeyFile(name) && ReadVotingFile(folder[name]).Err?) ==>
            o.result.Err? && o.folder == (map name | name in folder && name != "metadata.yml" :: folder[name])
            && o.voting == voting)
  {
    hide LoadVotingFiles, ReadVotingFile, NamedAsKeyFile;
    var base := folder - {METADATA};
    assert base == map name | name in folder && name != "metadata.yml" :: folder[name];
    LoadsExactly(base, ctx.list(base.Keys));
    MetadataIsNoKeyFile();
    if exists name | name in folder :: NamedAsKeyFile(name) && ReadVotingFile(folder[name]).Err? {
      var name :| name in folder && NamedAsKeyFile(name) && ReadVotingFile(folder[name]).Err?;
      assert name in base.Keys && name in ctx.list(base.Keys);
    }
  }

  lemma MetadataIsNoKeyFile()
    ensures !NamedAsKeyFile("metadata.yml")
  {
  }

  /** The first run of a voting node creates the first file, under any settings of updates and any update answer:
      it covers one lifetime from the present epoch on. The present epoch is the one the network gives,
      or else the last known one, or else 1; a zero counts as not given. */
  lemma {:induction false} FirstRun(ctx: Context, folder: Folder, voting: seq<VotingKeyFile>, current: Option<nat>,
                                    update: Option<bool>, e: nat)
    requires ListsFolders(ctx.list) && ctx.voting
    requires 1 <= ctx.settings.lifetime && ctx.settings.futureLifetime <= ctx.settings.lifetime
    requires forall name | name in folder :: name == "metadata.yml"
    requires current.Some? && current.value > 0 ==> e == current.value
    requires (current == None || current == Some(0)) && ctx.lastKnownEpoch > 0 ==> e == ctx.lastKnownEpoch
    requires (current == None || current == Some(0)) && ctx.lastKnownEpoch == 0 ==> e == 1
    requires e - 1 + ctx.settings.lifetime <= MAX_SAFE_INTEGER
    ensures var o := Step(ctx, folder, voting, current, update);
      var first := VotingKey(ToHex(ctx.crypto.publicKey(ctx.secret)), e, e - 1 + ctx.settings.lifetime);
      && o.result == Ok(true)
      && o.folder.Keys == {"private_key_tree1.dat"}
      && ReadVotingFile(o.folder["private_key_tree1.dat"]) == Ok(first)
      && o.voting == [VotingKeyFile(first, "private_key_tree1.dat")]
  {
    hide Step, Holds, ReadVotingFile, FileName;
    assert folder - {METADATA} == map[];
    EmptyHolds();
    NetworkEpochIs(current, ctx.lastKnownEpoch, e);
    RunFollowsSchedule(ctx, folder, voting, [], current, update);
    FirstFileIsAutomatic(e, Updating(ctx, update), ctx.settings, RootKey(ctx));
    HoldsOne(Step(ctx, folder, voting, current, update).folder,
             VotingKey(RootKey(ctx), e, e - 1 + ctx.settings.lifetime));
  }

  lemma NetworkEpochIs(current: Option<nat>, lastKnown: nat, e: nat)
    requires current.Some? && current.value > 0 ==> e == current.value
    requires (current == None || current == Some(0)) && lastKnown > 0 ==> e == lastKnown
    requires (current == None || current == Some(0)) && lastKnown == 0 ==> e == 1
    ensures NetworkEpoch(current, lastKnown) == e >= 1
  {
  }

  lemma HoldsOne(folder: Folder, key: VotingKey)
    requires Holds(folder, [key])
    ensures folder.Keys == {"private_key_tree1.dat"}
    ensures ReadVotingFile(folder["private_key_tree1.dat"]) == Ok(key)
    ensures Files([key]) == [VotingKeyFile(key, "private_key_tree1.dat")]
  {
    hide ReadVotingFile, Ordered, FileName;
    FirstName();
    forall name
      ensures name in folder.Keys <==> name == FileName(1)
    {
    }
  }

  /** A later run creates a file only when updates are asked for by the answer given or, without an answer, by the
      configuration; and then when the last file ends no later than the configured future. */
  lemma {:induction false} LaterRun(ctx: Context, folder: Folder, voting: seq<VotingKeyFile>, keys: seq<VotingKey>,
                                    current: Option<nat>, update: Option<bool>, e: nat)
    requires ListsFolders(ctx.list) && ctx.voting
    requires 1 <= ctx.settings.lifetime && ctx.settings.futureLifetime <= ctx.settings.lifetime
    requires Holds(folder - {METADATA}, keys) && |keys| > 0
    requires keys[|keys| - 1].endEpoch + ctx.settings.lifetime <= MAX_SAFE_INTEGER
    requires current.Some? && current.value > 0 ==> e == current.value
    requires (current == None || current == Some(0)) && ctx.lastKnownEpoch > 0 ==> e == ctx.lastKnownEpoch
    requires (current == None || current == Some(0)) && ctx.lastKnownEpoch == 0 ==> e == 1
    requires e - 1 + ctx.settings.lifetime <= MAX_SAFE_INTEGER
    ensures var o := Step(ctx, folder, voting, current, update);
      var asked := update == Some(true) || (update == None && ctx.autoUpdate);
      var last := keys[|keys| - 1].endEpoch;
      var start := if last >= e then last + 1 else e;
      var next := VotingKey(ToHex(ctx.crypto.publicKey(ctx.secret)), start, start - 1 + ctx.settings.lifetime);
      if asked && last <= e + ctx.settings.futureLifetime
      then o.result == Ok(true) && Holds(o.folder, keys + [next]) && o.voting == Files(keys + [next])
      else o.result == Ok(false) && Holds(o.folder, keys) && o.voting == Files(keys)
  {
    hide Step, Holds, ToHex, Files;
    NetworkEpochIs(current, ctx.lastKnownEpoch, e);
    RunFollowsSchedule(ctx, folder, voting, keys, current, update);
  }

  /** From its first run on a voting node has a key file; no later run takes one away. */
  lemma {:induction false} RunsKeepAFile(runs: seq<RunInput>)
    requires Valid(runs) && |runs| > 0
    ensures |KeysAfter(runs)| >= 1 && "private_key_tree1.dat" in FolderAfter(runs)
    ensures KeysAfter(runs[..|runs| - 1]) <= KeysAfter(runs)
    ensures |runs| == 1 ==> InExactlyOne(KeysAfter(runs), runs[0].Epoch())
  {
    hide Holds, FolderAfter, RunOnce, InExactlyOne;
    var init, last := runs[..|runs| - 1], runs[|runs| - 1];
    ValidInit(runs);
    FirstFileIsAutomatic(last.Epoch(), Updating(last.ctx, last.update), last.ctx.settings, RootKey(last.ctx));
    if |KeysAfter(init)| > 0 {
      LaterFilesAreAskedFor(KeysAfter(init), last.Epoch(), Updating(last.ctx, last.update), last.ctx.settings,
                            RootKey(last.ctx));
    }
    RunsHold(runs);
    HasFirstName(FolderAfter(runs), KeysAfter(runs));
  }

  lemma HasFirstName(folder: Folder, keys: seq<VotingKey>)
    requires Holds(folder, keys) && |keys| >= 1
    ensures "private_key_tree1.dat" in folder
  {
    hide ReadVotingFile, Ordered, FileName;
    FirstName();
    assert FileName(1) in folder;
  }

  lemma FirstName()
    ensures FileName(1) == "private_key_tree1.dat"
  {
  }
}
