/**
 Batched data migrations of user files: the loops of
 backend/alembic/versions/0cd424f32b1d_user_file_data_preparation_and_backfill.py and
 backend/alembic/versions/16c37a30adf2_user_file_relationship_migration.py.
 LIMIT without ORDER BY picks any rows; generated UUIDs are a parameter.
 */
module Backfill {
  import opened Base

  /** A row of user_file: its folder, and its new id once generated. */
  datatype UserFile = UserFile(folder: Option<int>, newId: Option<int>)

  /** `SELECT ... LIMIT n`: any `n` of the rows, or all if there are fewer. */
  method Limit<T>(rows: set<T>, n: nat) returns (some: set<T>)
    ensures some <= rows && |some| == if n < |rows| then n else |rows|
  {
    some := {};
    var rest := rows;
    while rest != {} && |some| < n
      invariant rest <= rows && some == rows - rest && |some| <= n
      invariant |some| + |rest| == |rows|
      decreases rest
    {
      var x :| x in rest;
      rest := rest - {x};
      some := some + {x};
    }
  }

  class Tables {
    var userFile: map<int, UserFile>
    /** persona__user_file, keyed by persona and file. */
    var personaFile: map<(int, int), Option<int>>
    /** persona__user_folder as pairs of persona and folder. */
    var personaFolder: set<(int, int)>
    /** project__user_file as pairs of project and new file id. */
    var projectFile: set<(int, int)>

    constructor (userFile: map<int, UserFile>, personaFile: map<(int, int), Option<int>>,
                 personaFolder: set<(int, int)>, projectFile: set<(int, int)>)
      ensures this.userFile == userFile && this.personaFile == personaFile
      ensures this.personaFolder == personaFolder && this.projectFile == projectFile
    {
      this.userFile, this.personaFile := userFile, personaFile;
      this.personaFolder, this.projectFile := personaFolder, projectFile;
    }

    // ---- user_file.new_id -------------------------------------------------------------

    /**
     Whatever rows LIMIT picks, the loop ends with every missing id generated, every present one kept,
     and the count it reports is the number that was missing.
     */
    method PopulateNewIds(batchSize: nat, newUuid: int -> int) returns (updated: nat)
      requires batchSize > 0
      modifies this`userFile
      ensures userFile.Keys == old(userFile).Keys
      ensures forall f :: f in userFile ==>
                var (was, now) := (old(userFile)[f], userFile[f]);
                now.folder == was.folder && now.newId == if was.newId.Some? then was.newId else Some(newUuid(f))
      ensures MissingIds(userFile) == {}
      ensures updated == |MissingIds(old(userFile))|
    {
      hide *;
      ghost var files := userFile;
      ghost var missing := MissingIds(files);
      ghost var filled: set<int> := {};
      FillNoFiles(files, newUuid);
      updated := 0;
      var inBatch := batchSize;
      while inBatch >= batchSize
        invariant filled <= missing && updated == |filled|
        invariant userFile == FilledFiles(files, filled, newUuid)
        invariant MissingIds(userFile) == missing - filled
        invariant inBatch < batchSize ==> filled == missing
        decreases |missing - filled|, inBatch
      {
        var nulls := MissingIds(userFile);
        var chosen := Limit(nulls, batchSize);
        FillMoreFiles(files, filled, chosen, newUuid);
        userFile := FilledFiles(userFile, chosen, newUuid);
        inBatch := |chosen|;
        updated := updated + inBatch;
        OneBatch(missing, filled, chosen);
        if inBatch < batchSize {
          SameSizeSubset(chosen, nulls);
        }
        filled := filled + chosen;
      }
      FilledMeaning(files, newUuid);
    }

    // ---- persona__user_file.user_file_id_uuid ---------------------------------------------

    /**
     The second loop updates whole personas at a time, so a pass may touch more rows than the batch size.
     Under the table's foreign key every row is filled with its file's id, the count is the rows that were
     missing, and the check after the loop passes; without it, exactly when no missing row's file is gone.
     */
    method PopulatePersonaUuids(batchSize: nat) returns (updated: nat, verified: bool)
      requires batchSize > 0
      requires MissingIds(userFile) == {}
      modifies this`personaFile
      ensures verified <==> MissingLinks(old(personaFile)) <= Backed(userFile, MissingLinks(old(personaFile)))
      ensures personaFile.Keys == old(personaFile).Keys
      ensures ForeignKey(old(personaFile), userFile) ==>
                && verified && MissingLinks(personaFile) == {} && updated == |MissingLinks(old(personaFile))|
                && forall k :: k in personaFile ==>
                     k.1 in userFile
                     && personaFile[k] == if old(personaFile)[k].Some? then old(personaFile)[k] else userFile[k.1].newId
      ensures forall k :: k in personaFile && old(personaFile)[k].Some? ==> personaFile[k] == old(personaFile)[k]
      ensures verified ==> forall k :: k in personaFile && old(personaFile)[k].None? ==>
                             k.1 in userFile && personaFile[k] == userFile[k.1].newId && personaFile[k].Some?
      ensures forall k :: k in personaFile && old(personaFile)[k].None? && personaFile[k].Some? ==>
                k.1 in userFile && personaFile[k] == userFile[k.1].newId
      ensures updated == |MissingLinks(old(personaFile)) - MissingLinks(personaFile)|
      ensures verified ==> updated == |MissingLinks(old(personaFile))|
    {
      hide *;
      ghost var links := personaFile;
      ghost var missing := MissingLinks(links);
      ghost var filled: set<(int, int)> := {};
      FillNone(links, userFile);
      NoneBacked(userFile);
      updated := 0;
      var inBatch := batchSize;
      while inBatch >= batchSize
        invariant filled <= missing && updated == |filled|
        invariant filled == Backed(userFile, filled)
        invariant personaFile == FilledLinks(links, filled, userFile)
        invariant MissingLinks(personaFile) == missing - filled
        invariant inBatch < batchSize && missing <= Backed(userFile, missing) ==> filled == missing
        decreases |missing - filled|, inBatch
      {
        var nulls := MissingLinks(personaFile);
        var picked := Limit(nulls, batchSize);
        var chosen := OfPersonas(Backed(userFile, nulls), picked);
        WholePersonas(userFile, nulls, picked, missing);
        FillMore(links, filled, chosen, userFile);
        personaFile := FilledLinks(personaFile, chosen, userFile);
        inBatch := |chosen|;
        updated := updated + inBatch;
        OneBatch(missing, filled, chosen);
        if missing <= Backed(userFile, missing) {
          SubsetSize(picked, chosen);
          if inBatch < batchSize {
            SameSizeSubset(picked, nulls);
          }
        }
        filled := filled + chosen;
      }
      verified := MissingLinks(personaFile) == {};
      assert verified <==> filled == missing;
      assert missing - (missing - filled) == filled;
      FilledKeeps(links, filled, userFile);
      KeyBacksLinks(links, userFile);
    }

    // ---- persona__user_folder into persona__user_file -----------------------------------------

    /** The persona/file relation ends as the old one united with the folder join, batch by batch. */
    method MigratePersonaFolders(batchSize: nat) returns (inserted: nat)
      requires batchSize > 0
      modifies this`personaFile
      ensures personaFile
        == Linked(old(personaFile), FolderJoin(personaFolder, userFile) - old(personaFile).Keys, userFile)
      ensures inserted == |FolderJoin(personaFolder, userFile) - old(personaFile).Keys|
    {
      hide *;
      var join := FolderJoin(personaFolder, userFile);
      ghost var links := personaFile;
      ghost var toMigrate := join - personaFile.Keys;
      ghost var added: set<(int, int)> := {};
      LinkNone(links, userFile);
      JoinedFiles(personaFolder, userFile);
      inserted := 0;
      var inBatch := batchSize;
      while inBatch >= batchSize
        invariant added <= toMigrate && inserted == |added|
        invariant personaFile == Linked(links, added, userFile)
        invariant inBatch < batchSize ==> added == toMigrate
        decreases |toMigrate - added|, inBatch
      {
        var candidates := join - personaFile.Keys;
        LinkedKeys(links, added, userFile);
        var chosen := Limit(candidates, batchSize);
        LinkMore(links, added, chosen, userFile);
        personaFile := Linked(personaFile, chosen, userFile);
        inBatch := |chosen|;
        inserted := inserted + inBatch;
        OneBatch(toMigrate, added, chosen);
        if inBatch < batchSize {
          SameSizeSubset(chosen, candidates);
        }
        added := added + chosen;
      }
    }

    // ---- user_file.folder_id into project__user_file -----------------------------------------

    /**
     LIMIT counts file rows while the loop stops on inserted pairs; the unique constraint on new_id makes
     the two agree, and then every filed user file gets its project row.
     */
    method PopulateProjectFiles(batchSize: nat) returns (inserted: nat)
      requires batchSize > 0
      requires MissingIds(userFile) == {} && UniqueIds(userFile)
      modifies this`projectFile
      ensures projectFile == old(projectFile) + ProjectPairs(userFile, FiledIn(userFile))
      ensures forall p, u :: (p, u) in projectFile <==>
                (p, u) in old(projectFile) || exists f :: f in userFile && userFile[f] == UserFile(Some(p), Some(u))
      ensures inserted == |ProjectPairs(userFile, FiledIn(userFile)) - old(projectFile)|
    {
      hide *;
      var filed := FiledIn(userFile);
      ghost var toCreate := ProjectPairs(userFile, filed) - projectFile;
      ghost var added: set<(int, int)> := {};
      inserted := 0;
      var inBatch := batchSize;
      while inBatch >= batchSize
        invariant added <= toCreate && inserted == |added|
        invariant projectFile == old(projectFile) + added
        invariant inBatch < batchSize ==> added == toCreate
        decreases |toCreate - added|, inBatch
      {
        var candidates := Unpaired(userFile, projectFile);
        var chosen := Limit(candidates, batchSize);
        PairsOf(userFile, projectFile, chosen);
        var pairs := ProjectPairs(userFile, chosen);
        PairsCounted(userFile, chosen);
        NewPairs(ProjectPairs(userFile, filed), old(projectFile), added, pairs);
        inBatch := |pairs - projectFile|;
        projectFile := projectFile + pairs;
        inserted := inserted + inBatch;
        OneBatch(toCreate, added, pairs);
        if inBatch < batchSize {
          SameSizeSubset(chosen, candidates);
        }
        added := added + pairs;
      }
      AllPairs(old(projectFile), ProjectPairs(userFile, filed));
      PairsMeaning(userFile);
    }
  }

  // ---- what the statements compute -----------------------------------------------------------

  function MissingIds(files: map<int, UserFile>): set<int> {
    set f | f in files && files[f].newId.None?
  }

  function FilledFiles(files: map<int, UserFile>, chosen: set<int>, newUuid: int -> int): map<int, UserFile> {
    map f | f in files :: if f in chosen then files[f].(newId := Some(newUuid(f))) else files[f]
  }

  function MissingLinks(links: map<(int, int), Option<int>>): set<(int, int)> {
    set k | k in links && links[k].None?
  }

  /** The rows whose file exists. */
  function Backed(files: map<int, UserFile>, rows: set<(int, int)>): set<(int, int)> {
    set k | k in rows && k.1 in files
  }

  /** `persona__user_file.user_file_id` refers to `user_file.id`. */
  ghost predicate ForeignKey(links: map<(int, int), Option<int>>, files: map<int, UserFile>) {
    forall k :: k in links ==> k.1 in files
  }

  lemma KeyBacksLinks(links: map<(int, int), Option<int>>, files: map<int, UserFile>)
    ensures ForeignKey(links, files) ==>
              MissingLinks(links) <= Backed(files, MissingLinks(links)) && forall k :: k in links ==> k.1 in files
  {
  }

  function OfPersonas(rows: set<(int, int)>, picked: set<(int, int)>): set<(int, int)> {
    var personas := set k | k in picked :: k.0;
    set k | k in rows && k.0 in personas
  }

  function FilledLinks(links: map<(int, int), Option<int>>, chosen: set<(int, int)>, files: map<int, UserFile>)
    : map<(int, int), Option<int>>
  {
    map k | k in links :: if k in chosen && k.1 in files then files[k.1].newId else links[k]
  }

  function Linked(links: map<(int, int), Option<int>>, chosen: set<(int, int)>, files: map<int, UserFile>)
    : map<(int, int), Option<int>>
  {
    links + map k | k in chosen && k.1 in files :: files[k.1].newId
  }

  /** `SELECT DISTINCT persona, file` over the folders both share. */
  function FolderJoin(personaFolder: set<(int, int)>, files: map<int, UserFile>): set<(int, int)> {
    set p, f | p in personaFolder && f in files && files[f].folder == Some(p.1) :: (p.0, f)
  }

  function FiledIn(files: map<int, UserFile>): set<int> {
    set f | f in files && files[f].folder.Some? && files[f].newId.Some?
  }

  function ProjectPair(file: UserFile): (int, int)
    requires file.folder.Some? && file.newId.Some?
  {
    (file.folder.value, file.newId.value)
  }

  function ProjectPairs(files: map<int, UserFile>, chosen: set<int>): set<(int, int)>
    requires chosen <= FiledIn(files)
  {
    set f | f in chosen :: ProjectPair(files[f])
  }

  /** The filed files that have no project row yet. */
  function Unpaired(files: map<int, UserFile>, projectFile: set<(int, int)>): set<int> {
    set f | f in files && f in FiledIn(files) && ProjectPair(files[f]) !in projectFile
  }

  ghost predicate UniqueIds(files: map<int, UserFile>) {
    forall f, g :: f in files && g in files && files[f].newId.Some? && files[f].newId == files[g].newId ==> f == g
  }

  // ---- one pass of each statement ---------------------------------------------------------------

  lemma FillNoFiles(files: map<int, UserFile>, newUuid: int -> int)
    ensures FilledFiles(files, {}, newUuid) == files
  {
  }

  lemma FilledMeaning(files: map<int, UserFile>, newUuid: int -> int)
    ensures var all := FilledFiles(files, MissingIds(files), newUuid);
      && all.Keys == files.Keys
      && forall f :: f in all ==>
           && all[f].folder == files[f].folder
           && all[f].newId == if files[f].newId.Some? then files[f].newId else Some(newUuid(f))
  {
  }

  /** Filling in two passes is filling once, and what was filled is no longer missing. */
  lemma FillMoreFiles(files: map<int, UserFile>, done: set<int>, chosen: set<int>, newUuid: int -> int)
    requires chosen <= MissingIds(FilledFiles(files, done, newUuid))
    ensures FilledFiles(FilledFiles(files, done, newUuid), chosen, newUuid) == FilledFiles(files, done + chosen, newUuid)
    ensures MissingIds(FilledFiles(files, done + chosen, newUuid))
         == MissingIds(FilledFiles(files, done, newUuid)) - chosen
  {
  }

  lemma FillNone(links: map<(int, int), Option<int>>, files: map<int, UserFile>)
    ensures FilledLinks(links, {}, files) == links
  {
  }

  lemma NoneBacked(files: map<int, UserFile>)
    ensures Backed(files, {}) == {}
  {
  }

  lemma FillMore(links: map<(int, int), Option<int>>, done: set<(int, int)>, chosen: set<(int, int)>,
                 files: map<int, UserFile>)
    requires MissingIds(files) == {}
    requires done == Backed(files, done) && chosen == Backed(files, chosen)
    requires chosen <= MissingLinks(FilledLinks(links, done, files))
    ensures FilledLinks(FilledLinks(links, done, files), chosen, files) == FilledLinks(links, done + chosen, files)
    ensures MissingLinks(FilledLinks(links, done + chosen, files))
         == MissingLinks(FilledLinks(links, done, files)) - chosen
    ensures done + chosen == Backed(files, done + chosen)
  {
    assert forall f :: f in files ==> f !in MissingIds(files);
  }

  lemma FilledKeeps(links: map<(int, int), Option<int>>, done: set<(int, int)>, files: map<int, UserFile>)
    requires done <= MissingLinks(links)
    ensures FilledLinks(links, done, files).Keys == links.Keys
    ensures forall k :: k in links && links[k].Some? ==> FilledLinks(links, done, files)[k] == links[k]
    ensures forall k :: k in links && links[k].None? && FilledLinks(links, done, files)[k].Some? ==>
              k.1 in files && FilledLinks(links, done, files)[k] == files[k.1].newId
    ensures MissingIds(files) == {} && done == MissingLinks(links) && done == Backed(files, done) ==>
              forall k :: k in links && links[k].None? ==>
                k.1 in files && FilledLinks(links, done, files)[k] == files[k.1].newId && files[k.1].newId.Some?
  {
    assert forall f :: f in files && files[f].newId.None? ==> f in MissingIds(files);
    assert forall k :: k in links && links[k].None? ==> k in MissingLinks(links);
    assert forall k :: k in Backed(files, done) ==> k.1 in files;
  }

  /** Updating every backed row of the picked personas covers the picked rows that are backed. */
  lemma WholePersonas(files: map<int, UserFile>, nulls: set<(int, int)>, picked: set<(int, int)>,
                      missing: set<(int, int)>)
    requires picked <= nulls <= missing
    ensures OfPersonas(Backed(files, nulls), picked) <= nulls
    ensures Backed(files, OfPersonas(Backed(files, nulls), picked)) == OfPersonas(Backed(files, nulls), picked)
    ensures missing <= Backed(files, missing) ==> picked <= OfPersonas(Backed(files, nulls), picked)
  {
  }

  lemma JoinedFiles(personaFolder: set<(int, int)>, files: map<int, UserFile>)
    ensures forall k :: k in FolderJoin(personaFolder, files) ==> k.1 in files
  {
  }

  lemma LinkNone(links: map<(int, int), Option<int>>, files: map<int, UserFile>)
    ensures Linked(links, {}, files) == links
  {
  }

  lemma LinkedKeys(links: map<(int, int), Option<int>>, added: set<(int, int)>, files: map<int, UserFile>)
    requires forall k :: k in added ==> k.1 in files
    ensures Linked(links, added, files).Keys == links.Keys + added
    ensures forall join: set<(int, int)> :: join - (links.Keys + added) == join - links.Keys - added
  {
  }

  /**
   What the folder migration leaves: the old rows as they were, and one row for every file in a folder the
   persona had, with that file's new id.
   */
  lemma MigratedMeaning(links: map<(int, int), Option<int>>, personaFolder: set<(int, int)>, files: map<int, UserFile>)
    ensures var all := Linked(links, FolderJoin(personaFolder, files) - links.Keys, files);
      && (forall p, f :: (p, f) in all <==>
            || (p, f) in links
            || (f in files && files[f].folder.Some? && (p, files[f].folder.value) in personaFolder))
      && (forall k :: k in all ==>
            if k in links then all[k] == links[k] else k.1 in files && all[k] == files[k.1].newId)
  {
  }

  lemma LinkMore(links: map<(int, int), Option<int>>, added: set<(int, int)>, chosen: set<(int, int)>,
                 files: map<int, UserFile>)
    ensures Linked(Linked(links, added, files), chosen, files) == Linked(links, added + chosen, files)
  {
  }

  // ---- sizes ------------------------------------------------------------------------------------

  lemma DifferenceSize<T>(a: set<T>, b: set<T>)
    requires b <= a
    ensures |a - b| == |a| - |b|
  {
  }

  lemma SameSizeSubset<T>(a: set<T>, b: set<T>)
    requires a <= b && |a| == |b|
    ensures a == b
  {
    DifferenceSize(b, a);
    assert b - a == {};
  }

  lemma OneBatch<T>(all: set<T>, done: set<T>, chosen: set<T>)
    requires done <= all && chosen <= all - done
    ensures |done + chosen| == |done| + |chosen|
    ensures |all - (done + chosen)| == |all - done| - |chosen|
    ensures all - (done + chosen) == (all - done) - chosen
  {
  }

  lemma PairsMeaning(files: map<int, UserFile>)
    ensures forall p, u :: (p, u) in ProjectPairs(files, FiledIn(files)) <==>
              exists f :: f in files && files[f] == UserFile(Some(p), Some(u))
  {
  }

  lemma NewPairs<T>(all: set<T>, before: set<T>, added: set<T>, pairs: set<T>)
    requires pairs <= all - (before + added)
    ensures pairs - (before + added) == pairs && pairs <= all - before - added
    ensures before + added + pairs == before + (added + pairs)
    ensures all - (before + added) == all - before - added
  {
  }

  lemma AllPairs<T>(before: set<T>, all: set<T>)
    ensures before + (all - before) == before + all
  {
  }

  /** The pairs of rows that have none yet are new, and taking all such rows gives all missing pairs. */
  lemma PairsOf(files: map<int, UserFile>, projectFile: set<(int, int)>, chosen: set<int>)
    requires chosen <= Unpaired(files, projectFile)
    ensures chosen <= FiledIn(files)
    ensures ProjectPairs(files, chosen) <= ProjectPairs(files, FiledIn(files)) - projectFile
    ensures chosen == Unpaired(files, projectFile)
      ==> ProjectPairs(files, chosen) == ProjectPairs(files, FiledIn(files)) - projectFile
  {
  }

  lemma Pick<T>(s: set<T>) returns (x: T)
    requires s != {}
    ensures x in s
  {
    x :| x in s;
  }

  /** Files with distinct new ids give as many distinct pairs. */
  lemma {:induction false} PairsCounted(files: map<int, UserFile>, chosen: set<int>)
    requires chosen <= FiledIn(files)
    requires UniqueIds(files)
    ensures |ProjectPairs(files, chosen)| == |chosen|
    decreases chosen
  {
    if chosen != {} {
      var f := Pick(chosen);
      var rest := chosen - {f};
      PairsCounted(files, rest);
      assert ProjectPairs(files, chosen) == ProjectPairs(files, rest) + {ProjectPair(files[f])};
      assert ProjectPair(files[f]) !in ProjectPairs(files, rest);
    }
  }
}
