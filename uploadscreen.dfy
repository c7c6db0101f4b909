/*
 * The upload screen (uploadscreen.cpp): a list of picked files waiting to
 * be stored, the edits made to the selected ones, and the commit that gives
 * every file a numbered folder under docs with an info.json sidecar.
 *
 * The docs folder is a map from sub-folder name to what its info.json
 * holds (None: there is no readable info.json).
 */
module Upload {
  import opened Options
  import opened Text
  import opened Docs
  import opened Rows
  import opened Ordering
  import opened JsonText
  import opened SaveStore

  /** Some record of docs was picked from path. */
  predicate HasPath(docs: seq<DocInfo>, path: string) {
    exists k :: 0 <= k < |docs| && docs[k].filePath == path
  }

  /** loadDocs: the picked paths are taken in order, and each one not yet in
      the list (counting those added before it) gets a new record at the end. */
  function Staged(docs: seq<DocInfo>, paths: seq<string>): (r: seq<DocInfo>)
    ensures |docs| <= |r| && r[..|docs|] == docs
    decreases |paths|
  {
    if paths == [] then docs
    else
      var next := if HasPath(docs, paths[0]) then docs else docs + [NewDoc(paths[0])];
      assert next[..|docs|] == docs;
      var r := Staged(next, paths[1..]);
      assert r[..|docs|] == r[..|next|][..|docs|];
      r
  }

  /** One step of loadDocs: the first path is looked up and, when new,
      staged before the rest. */
  lemma StagedStep(docs: seq<DocInfo>, paths: seq<string>)
    requires paths != []
    ensures Staged(docs, paths)
         == Staged(if HasPath(docs, paths[0]) then docs else docs + [NewDoc(paths[0])], paths[1..])
  {
  }

  /** The tags a record gets from the input text: none for empty text, the
      tokens of the simplified text otherwise. */
  function TagsFrom(text: string): (tags: seq<string>)
    ensures text == [] <==> tags == []
    ensures text != [] ==> Join(tags, Delimiter) == Simplified(text)
  {
    if text == [] then [] else Tokens(text)
  }

  /** What a press of OK leads to. */
  datatype Outcome =
    | EmptyBatch            // nothing to upload
    | MissingTag(index: nat) // the first record without tags
    | Committed

  /** What info.json of a new folder holds: the record's sidecar, or nothing
      readable when the file cannot be written. */
  function SidecarEntry(d: DocInfo, canWrite: bool): Option<Json> {
    if canWrite then Some(JObject(SidecarOf(d))) else None
  }

  /** The docs folder after committing docs, the counter standing at count
      before: each record takes the next number; a folder that does not exist
      yet is created with the record's sidecar, an existing one is left
      alone and the record is not stored. */
  function CommitFolders(disk: map<string, Option<Json>>, docs: seq<DocInfo>, count: nat, canWrite: bool)
    : map<string, Option<Json>>
    decreases |docs|
  {
    if docs == [] then disk
    else
      var folder := NumberText(count + 1);
      var next := if folder in disk then disk else disk[folder := SidecarEntry(docs[0], canWrite)];
      CommitFolders(next, docs[1..], count + 1, canWrite)
  }

  /** One step of the commit loop: the first record takes folder count + 1. */
  lemma CommitStep(disk: map<string, Option<Json>>, docs: seq<DocInfo>, count: nat, canWrite: bool)
    requires docs != []
    ensures var folder := NumberText(count + 1);
            CommitFolders(disk, docs, count, canWrite)
            == CommitFolders(if folder in disk then disk else disk[folder := SidecarEntry(docs[0], canWrite)],
                             docs[1..], count + 1, canWrite)
  {
  }

  /** The names of the folders numbered count + 1 to count + n. */
  function Numbered(count: nat, n: nat): set<string> {
    set k: nat | count < k <= count + n :: NumberText(k)
  }

  class UploadScreen {
    const save: SaveData
    /** The records waiting to be uploaded, in the order of the list. */
    var loaded: seq<DocInfo>
    /** The tags list: the default tags, then the template names. */
    var tagList: seq<string>

    /** The screen opens with no records and the tags list filled from the
        store: the default tags in their order, then the template names in
        key order. */
    constructor (save: SaveData)
      ensures this.save == save && loaded == []
      ensures tagList == save.defaultTags + SortedSet(save.templates.Keys)
    {
      this.save := save;
      loaded := [];
      var names := SortedKeys(save.templates.Keys);
      tagList := save.defaultTags + names;
    }

    /** init: a fresh list from the files picked; true when any was picked. */
    method Init(fileNames: seq<string>) returns (picked: bool)
      modifies this`loaded
      ensures loaded == Staged([], fileNames)
      ensures picked <==> fileNames != []
    {
      loaded := [];
      LoadDocs(fileNames);
      picked := fileNames != [];
    }

    /** loadDocs (also what addToDocs does): appends a record for every
        picked path that no record has yet. */
    method LoadDocs(fileNames: seq<string>)
      modifies this`loaded
      ensures loaded == Staged(old(loaded), fileNames)
    {
      var n := 0;
      while n < |fileNames|
        invariant 0 <= n <= |fileNames|
        invariant Staged(loaded, fileNames[n..]) == Staged(old(loaded), fileNames)
      {
        var fileName := fileNames[n];
        var duplicate := IsListed(fileName);
        StagedStep(loaded, fileNames[n..]);
        assert fileNames[n..][1..] == fileNames[n + 1..];
        if !duplicate {
          loaded := loaded + [NewDoc(fileName)];
        }
        n := n + 1;
      }
    }

    /** The scan of loadDocs for a record that already has the path. */
    method IsListed(path: string) returns (duplicate: bool)
      ensures duplicate <==> HasPath(loaded, path)
    {
      duplicate := false;
      var j := 0;
      while j < |loaded|
        invariant 0 <= j <= |loaded|
        invariant forall k :: 0 <= k < j ==> loaded[k].filePath != path
      {
        if loaded[j].filePath == path {
          duplicate := true;
          return;
        }
        j := j + 1;
      }
    }

    /** setTags: every selected row that exists gets the tags of text; the
        other rows and the other fields stay as they were. */
    method SetTags(text: string, rows: seq<nat>)
      modifies this`loaded
      ensures |loaded| == |old(loaded)|
      ensures forall i :: 0 <= i < |loaded| ==>
                loaded[i] == if i in rows then old(loaded)[i].(tags := TagsFrom(text)) else old(loaded)[i]
      ensures text != [] ==> forall i :: i in rows && i < |loaded| ==> loaded[i].tags != []
    {
      var n := 0;
      while n < |rows|
        invariant 0 <= n <= |rows|
        invariant |loaded| == |old(loaded)|
        invariant forall i :: 0 <= i < |loaded| ==>
                    loaded[i] == if i in rows[..n] then old(loaded)[i].(tags := TagsFrom(text)) else old(loaded)[i]
      {
        var i := rows[n];
        if i < |loaded| {
          var info := loaded[i];
          if text == [] {
            info := info.(tags := []);
          } else {
            info := info.(tags := Tokens(text));
          }
          loaded := loaded[i := info];
        }
        assert rows[..n + 1] == rows[..n] + [rows[n]];
        n := n + 1;
      }
      assert rows[..n] == rows;
    }

    /** setComment: every selected row that exists gets text as its comment;
        nothing else changes. */
    method SetComment(text: string, rows: seq<nat>)
      modifies this`loaded
      ensures |loaded| == |old(loaded)|
      ensures forall i :: 0 <= i < |loaded| ==>
                loaded[i] == if i in rows then old(loaded)[i].(comment := text) else old(loaded)[i]
    {
      var n := 0;
      while n < |rows|
        invariant 0 <= n <= |rows|
        invariant |loaded| == |old(loaded)|
        invariant forall i :: 0 <= i < |loaded| ==>
                    loaded[i] == if i in rows[..n] then old(loaded)[i].(comment := text) else old(loaded)[i]
      {
        var i := rows[n];
        if i < |loaded| {
          loaded := loaded[i := loaded[i].(comment := text)];
        }
        assert rows[..n + 1] == rows[..n] + [rows[n]];
        n := n + 1;
      }
      assert rows[..n] == rows;
    }

    /** setName: every selected row that exists gets text as its name;
        nothing else changes. */
    method SetName(text: string, rows: seq<nat>)
      modifies this`loaded
      ensures |loaded| == |old(loaded)|
      ensures forall i :: 0 <= i < |loaded| ==>
                loaded[i] == if i in rows then old(loaded)[i].(fileName := text) else old(loaded)[i]
    {
      var n := 0;
      while n < |rows|
        invariant 0 <= n <= |rows|
        invariant |loaded| == |old(loaded)|
        invariant forall i :: 0 <= i < |loaded| ==>
                    loaded[i] == if i in rows[..n] then old(loaded)[i].(fileName := text) else old(loaded)[i]
      {
        var i := rows[n];
        if i < |loaded| {
          loaded := loaded[i := loaded[i].(fileName := text)];
        }
        assert rows[..n + 1] == rows[..n] + [rows[n]];
        n := n + 1;
      }
      assert rows[..n] == rows;
    }

    /** deleteFromDocs: the selected rows leave the list, the others stay
        in order. */
    method DeleteFromDocs(rows: seq<nat>)
      requires ValidRows(rows, |loaded|)
      modifies this`loaded
      ensures loaded == KeepRows(old(loaded), Elements(rows))
    {
      loaded := RemoveRows(loaded, rows);
    }

    /** The check before a commit: the first row without tags, or -1 when
        every row has tags. */
    method MissingTagIndex() returns (missing: int)
      ensures -1 <= missing < |loaded|
      ensures missing == -1 <==> forall k :: 0 <= k < |loaded| ==> loaded[k].tags != []
      ensures missing >= 0 ==>
                loaded[missing].tags == [] && forall k :: 0 <= k < missing ==> loaded[k].tags != []
    {
      missing := -1;
      var i := 0;
      while i < |loaded|
        invariant 0 <= i <= |loaded|
        invariant missing == -1
        invariant forall k :: 0 <= k < i ==> loaded[k].tags != []
      {
        if loaded[i].tags == [] {
          missing := i;
          break;
        }
        i := i + 1;
      }
    }

    /** The loop of finishUpload over the list: each record takes the next
        folder number and is written there when that folder does not exist. */
    method CommitBatch(canWrite: bool, disk: map<string, Option<Json>>) returns (written: map<string, Option<Json>>)
      modifies save
      ensures save.docsCount == old(save.docsCount) + |loaded|
      ensures written == CommitFolders(disk, loaded, old(save.docsCount), canWrite)
      ensures save.workingFolder == old(save.workingFolder) && save.folderDocs == old(save.folderDocs)
      ensures save.defaultTags == old(save.defaultTags) && save.templates == old(save.templates)
    {
      written := disk;
      var n := 0;
      while n < |loaded|
        invariant 0 <= n <= |loaded|
        invariant save.docsCount == old(save.docsCount) + n
        invariant CommitFolders(written, loaded[n..], save.docsCount, canWrite)
               == CommitFolders(disk, loaded, old(save.docsCount), canWrite)
        invariant save.workingFolder == old(save.workingFolder) && save.folderDocs == old(save.folderDocs)
        invariant save.defaultTags == old(save.defaultTags) && save.templates == old(save.templates)
      {
        var info := loaded[n];
        save.docsCount := save.docsCount + 1;
        var folder := NumberText(save.docsCount);
        assert loaded[n..][1..] == loaded[n + 1..];
        if folder !in written {
          written := written[folder := SidecarEntry(info, canWrite)];
        }
        n := n + 1;
      }
      assert loaded[n..] == [];
    }

    /** finishUpload: refuses an empty list and a list with a row without
        tags; otherwise every record takes the next folder number, is
        written to that folder when it does not exist yet, and the catalogue
        is read again from the docs folder. disk is the docs folder before,
        written the docs folder after. */
    method FinishUpload(workingExists: bool, canWrite: bool, disk: map<string, Option<Json>>)
      returns (outcome: Outcome, written: map<string, Option<Json>>)
      modifies save
      ensures outcome == EmptyBatch <==> old(loaded) == []
      ensures outcome.MissingTag? <==> loaded != [] && exists k :: 0 <= k < |loaded| && loaded[k].tags == []
      ensures outcome.MissingTag? ==>
                && outcome.index < |loaded| && loaded[outcome.index].tags == []
                && forall k :: 0 <= k < outcome.index ==> loaded[k].tags != []
      ensures outcome == Committed <==> loaded != [] && forall k :: 0 <= k < |loaded| ==> loaded[k].tags != []
      ensures outcome != Committed ==> written == disk && unchanged(save)
      ensures outcome == Committed ==>
                && save.docsCount == old(save.docsCount) + |loaded|
                && written == CommitFolders(disk, loaded, old(save.docsCount), canWrite)
                && save.folderDocs == CatalogueOf(save.DocsFilePath(workingExists), SortedSet(written.Keys), written)
                && save.workingFolder == old(save.workingFolder)
                && save.defaultTags == old(save.defaultTags) && save.templates == old(save.templates)
    {
      written := disk;
      if loaded == [] {
        return EmptyBatch, written;
      }
      var missingTagIndex := MissingTagIndex();
      if missingTagIndex >= 0 {
        return MissingTag(missingTagIndex), written;
      }
      written := CommitBatch(canWrite, disk);
      save.LoadFilesData(workingExists, written);
      outcome := Committed;
    }
  }
}

/*
 * What staging and committing promise.
 */
module UploadProperties {
  import opened Options
  import opened Text
  import opened Docs
  import opened Ordering
  import opened JsonText
  import opened SaveStore
  import opened SaveStoreProperties
  import opened Upload

  predicate DistinctPaths(docs: seq<DocInfo>) {
    forall j, k :: 0 <= j < k < |docs| ==> docs[j].filePath != docs[k].filePath
  }

  /** Staging never gives two records the same path. */
  lemma {:induction false} StagedDistinct(docs: seq<DocInfo>, paths: seq<string>)
    requires DistinctPaths(docs)
    ensures DistinctPaths(Staged(docs, paths))
    decreases |paths|
  {
    if paths != [] {
      var p := paths[0];
      var next := if HasPath(docs, p) then docs else docs + [NewDoc(p)];
      StagedStep(docs, paths);
      if !HasPath(docs, p) {
        forall j, k | 0 <= j < k < |next| ensures next[j].filePath != next[k].filePath {
          assert next[j] == docs[j];
          if k < |docs| {
            assert next[k] == docs[k];
          } else {
            assert next[k].filePath == p;
          }
        }
      }
      StagedDistinct(next, paths[1..]);
    }
  }

  /** Every picked path ends up with a record, and a record is kept for a
      path only once. */
  lemma {:induction false} StagedCovers(docs: seq<DocInfo>, paths: seq<string>)
    ensures forall p :: p in paths ==> HasPath(Staged(docs, paths), p)
    decreases |paths|
  {
    if paths != [] {
      var next := if HasPath(docs, paths[0]) then docs else docs + [NewDoc(paths[0])];
      assert HasPath(next, paths[0]) by {
        if !HasPath(docs, paths[0]) {
          assert next[|docs|].filePath == paths[0];
        }
      }
      StagedCovers(next, paths[1..]);
      var r := Staged(next, paths[1..]);
      var k :| 0 <= k < |next| && next[k].filePath == paths[0];
      assert r[..|next|][k] == next[k];
    }
  }

  /** The records staging adds are fresh records of picked paths. */
  lemma {:induction false} StagedNew(docs: seq<DocInfo>, paths: seq<string>)
    ensures forall k :: |docs| <= k < |Staged(docs, paths)| ==>
              Staged(docs, paths)[k] == NewDoc(Staged(docs, paths)[k].filePath)
              && Staged(docs, paths)[k].filePath in paths
    decreases |paths|
  {
    if paths != [] {
      var p := paths[0];
      var next := if HasPath(docs, p) then docs else docs + [NewDoc(p)];
      StagedStep(docs, paths);
      StagedNew(next, paths[1..]);
      var r := Staged(next, paths[1..]);
      forall k | |docs| <= k < |r|
        ensures r[k] == NewDoc(r[k].filePath) && r[k].filePath in paths
      {
        if k < |next| {
          assert r[..|next|][k] == next[k];
          assert next[k] == NewDoc(p);
        } else {
          assert r[k].filePath in paths[1..];
        }
      }
    }
  }

  /** Committing leaves every folder that was there before as it was. */
  lemma {:induction false} CommitKeeps(disk: map<string, Option<Json>>, docs: seq<DocInfo>, count: nat, canWrite: bool)
    ensures forall n :: n in disk ==>
              n in CommitFolders(disk, docs, count, canWrite) && CommitFolders(disk, docs, count, canWrite)[n] == disk[n]
    decreases |docs|
  {
    if docs != [] {
      var folder := NumberText(count + 1);
      var next := if folder in disk then disk else disk[folder := SidecarEntry(docs[0], canWrite)];
      CommitKeeps(next, docs[1..], count + 1, canWrite);
    }
  }

  /** Committing adds exactly the folders numbered after the counter, one
      number per record. */
  lemma {:induction false} CommitKeys(disk: map<string, Option<Json>>, docs: seq<DocInfo>, count: nat, canWrite: bool)
    ensures CommitFolders(disk, docs, count, canWrite).Keys == disk.Keys + Numbered(count, |docs|)
    decreases |docs|
  {
    if docs != [] {
      var folder := NumberText(count + 1);
      var next := if folder in disk then disk else disk[folder := SidecarEntry(docs[0], canWrite)];
      assert next.Keys == disk.Keys + {folder};
      CommitStep(disk, docs, count, canWrite);
      CommitKeys(next, docs[1..], count + 1, canWrite);
      NumberedFirst(count, |docs|);
    }
  }

  /** The folders numbered count + 1 to count + m: the first, then the rest. */
  lemma NumberedFirst(count: nat, m: nat)
    requires m > 0
    ensures Numbered(count, m) == {NumberText(count + 1)} + Numbered(count + 1, m - 1)
  {
    var folder := NumberText(count + 1);
    forall x | x in Numbered(count, m) ensures x in {folder} + Numbered(count + 1, m - 1) {
      var k: nat :| count < k <= count + m && x == NumberText(k);
      if k > count + 1 {
        assert x in Numbered(count + 1, m - 1);
      }
    }
    forall x | x in Numbered(count + 1, m - 1) ensures x in Numbered(count, m) {
      var k: nat :| count + 1 < k <= count + 1 + (m - 1) && x == NumberText(k);
    }
    assert folder in Numbered(count, m);
  }

  /** The record numbered count + 1 + k lands in its folder when that folder
      did not exist before. */
  lemma {:induction false} CommitPlaces(disk: map<string, Option<Json>>, docs: seq<DocInfo>, count: nat,
                                        canWrite: bool, k: nat)
    requires k < |docs| && NumberText(count + 1 + k) !in disk
    ensures NumberText(count + 1 + k) in CommitFolders(disk, docs, count, canWrite)
    ensures CommitFolders(disk, docs, count, canWrite)[NumberText(count + 1 + k)] == SidecarEntry(docs[k], canWrite)
    decreases |docs|
  {
    var folder := NumberText(count + 1);
    var next := if folder in disk then disk else disk[folder := SidecarEntry(docs[0], canWrite)];
    if k == 0 {
      CommitKeeps(next, docs[1..], count + 1, canWrite);
    } else {
      var target := NumberText(count + 1 + k);
      if target == folder {
        NumberTextInjective(count + 1 + k, count + 1);
      }
      assert target == NumberText(count + 1 + 1 + (k - 1));
      CommitPlaces(next, docs[1..], count + 1, canWrite, k - 1);
    }
  }

  /** A record whose number was already taken by an existing folder is not
      stored: that folder keeps what it held. */
  lemma CommitSkipsTaken(disk: map<string, Option<Json>>, docs: seq<DocInfo>, count: nat, canWrite: bool, k: nat)
    requires k < |docs| && NumberText(count + 1 + k) in disk
    ensures NumberText(count + 1 + k) in CommitFolders(disk, docs, count, canWrite)
    ensures CommitFolders(disk, docs, count, canWrite)[NumberText(count + 1 + k)] == disk[NumberText(count + 1 + k)]
  {
    CommitKeeps(disk, docs, count, canWrite);
  }

  /** After a commit whose sidecars were written, every record that got a
      new folder is in the catalogue read back from the docs folder, with
      its path now pointing into that folder. */
  lemma UploadedListed(docsPath: string, disk: map<string, Option<Json>>, docs: seq<DocInfo>, count: nat, k: nat)
    requires k < |docs| && NumberText(count + 1 + k) !in disk
    ensures var after := CommitFolders(disk, docs, count, true);
            var dir := PathJoin(docsPath, NumberText(count + 1 + k));
            docs[k].(filePath := PathJoin(dir, docs[k].fileName)) in CatalogueOf(docsPath, SortedSet(after.Keys), after)
  {
    var after := CommitFolders(disk, docs, count, true);
    var folder := NumberText(count + 1 + k);
    var dir := PathJoin(docsPath, folder);
    CommitPlaces(disk, docs, count, true, k);
    SidecarReadBack(dir, docs[k]);
    assert ListedAs(docsPath, after, folder, docs[k].(filePath := PathJoin(dir, docs[k].fileName)));
    CatalogueRecords(docsPath, SortedSet(after.Keys), after, docs[k].(filePath := PathJoin(dir, docs[k].fileName)));
  }
}
