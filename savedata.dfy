/*
 * The store every screen shares (savedata.cpp): the default tags and the
 * tag templates read from config.json, the catalogue read from the numbered
 * sub-folders of the docs folder, the counter that numbers new folders, and
 * the writer that turns tags and templates back into configuration text.
 *
 * The file system is abstracted: whether the working folder exists is a
 * parameter, config.json is the document it holds (None when it cannot be
 * opened or is not JSON), and the docs folder is a map from sub-folder name
 * to the document its info.json holds.
 */
module SaveStore {
  import opened Options
  import opened Text
  import opened Ordering
  import opened JsonText
  import opened Placeholders
  import opened Docs

  const BaseFolder: string := "base"
  const DocsFolder: string := "docs"
  const ConfigFile: string := "config.json"
  const TagsKey: string := "tags"
  const TemplatesKey: string := "templates"
  const CommentKey: string := "comment"
  const FilenameKey: string := "filename"

  // ------------------------------------------------------------ configuration

  /** The default tags a configuration document lists: the elements of its
      "tags" array, none when there is no such array. */
  function ConfigTags(doc: Option<Json>): seq<string> {
    var v := Field(ObjectOf(doc), TagsKey);
    if v.JArray? then AsStrings(v.items) else []
  }

  /** The templates a configuration document lists: its "templates" object,
      each value read as a list of strings. */
  function ConfigTemplates(doc: Option<Json>): map<string, seq<string>> {
    var v := Field(ObjectOf(doc), TemplatesKey);
    if v.JObject? then map k | k in v.fields :: AsStringList(v.fields[k]) else map[]
  }

  /** The templates read from the keys in done of a "templates" object. */
  function TemplateLists(fields: map<string, Json>, done: set<string>): map<string, seq<string>>
    requires done <= fields.Keys
  {
    map k | k in done :: AsStringList(fields[k])
  }

  lemma TemplateListsStep(held: map<string, seq<string>>, fields: map<string, Json>, done: set<string>, k: string)
    requires done <= fields.Keys && k in fields
    ensures (held + TemplateLists(fields, done))[k := AsStringList(fields[k])]
         == held + TemplateLists(fields, done + {k})
  {
  }

  lemma NoTemplateLists(held: map<string, seq<string>>)
    ensures held + map[] == held
  {
  }

  /** The tags as the writer renders them: each quoted, joined by ", ";
      nothing at all for no tags. */
  function TagsText(tags: seq<string>): string {
    if tags == [] then "" else QuotedItems(tags)
  }

  /** The templates as the writer renders them: one "name":[...] member per
      template, in ascending name order (the order a QMap is walked in). */
  ghost function TemplatesText(templates: map<string, seq<string>>): string {
    Join(Members(SortedSet(templates.Keys), templates), ", ")
  }

  /** The configuration text with the two rendered parts in their places:
      {"tags":[tagsStr], "templates":{templatesStr}}. */
  function FillConfig(tagsStr: string, templatesStr: string): string {
    "{" + MemberText(TagsKey, "[" + tagsStr + "]") + ", " + MemberText(TemplatesKey, "{" + templatesStr + "}") + "}"
  }

  /** The text exportTagsToFile is meant to produce. */
  ghost function ConfigText(tags: seq<string>, templates: map<string, seq<string>>): string {
    FillConfig(TagsText(tags), TemplatesText(templates))
  }

  /** The place-marker form of the configuration text,
      {"tags":[%1], "templates":{%2}}. */
  const ConfigPattern: string := FillConfig("%1", "%2")

  /** The fixed text before the tags, between tags and templates, and after
      the templates. */
  function Pre(): string { "{" + "\"" + TagsKey + "\":" + "[" }
  function Mid(): string { "]" + ", " + "\"" + TemplatesKey + "\":" + "{" }
  function Post(): string { "}" + "}" }

  lemma FillShape(t: string, m: string)
    ensures FillConfig(t, m) == Pre() + (t + (Mid() + (m + Post())))
  {
  }

  lemma PiecesPlain()
    ensures NoPercent(Pre()) && NoPercent(Mid()) && NoPercent(Post()) && NoPercent("\"")
    ensures Mid() != [] && !IsDigit(Mid()[0]) && Post() != [] && !IsDigit(Post()[0])
  {
  }

  /** The tags go in at the first marker. */
  lemma ArgConfigFirst(x: string)
    ensures Arg(ConfigPattern, x) == Pre() + (x + (Mid() + ("%2" + Post())))
  {
    PiecesPlain();
    FillShape("%1", "%2");
    FirstSubstitution(Pre(), Mid(), Post(), x);
  }

  /** With no '%' in the rendered tags no marker can come in with them, and
      the two substitutions put both texts in their places. */
  lemma PatternAgrees(x: string, y: string)
    requires NoPercent(x)
    ensures Arg(Arg(ConfigPattern, x), y) == FillConfig(x, y)
  {
    ArgConfigFirst(x);
    PiecesPlain();
    var head := Pre() + x + Mid();
    NoPercentJoin(Pre(), x);
    NoPercentJoin(Pre() + x, Mid());
    Regroup(Pre(), x, Mid(), "%2" + Post());
    SecondSubstitution(head, Post(), y);
    FillShape(x, y);
    Regroup(Pre(), x, Mid(), y + Post());
  }

  /** Concatenation regrouped around the tags' text. */
  lemma Regroup(a: string, b: string, c: string, d: string)
    ensures a + (b + (c + d)) == (a + b + c) + d
  {
  }

  /** Concatenation regrouped around a marker inside quoted tags. */
  lemma RegroupMarker(p: string, q: string, marker: string, m: string, t: string)
    ensures p + ((q + (marker + q)) + (m + t)) == (p + q) + (marker + ((q + m) + t))
  {
  }

  /** What exportTagsToFile builds as written: the tags substituted at the
      lowest marker first, then the templates at the lowest marker left,
      which may be one the tags brought in. When the tags hold no '%' this
      is the intended text. */
  function ArgConfig(tagsStr: string, templatesStr: string): (r: string)
    ensures NoPercent(tagsStr) ==> r == FillConfig(tagsStr, templatesStr)
  {
    var r := Arg(Arg(ConfigPattern, tagsStr), templatesStr);
    assert NoPercent(tagsStr) ==> r == FillConfig(tagsStr, templatesStr) by {
      if NoPercent(tagsStr) {
        PatternAgrees(tagsStr, templatesStr);
      }
    }
    r
  }

  /** The text exportTagsToFile parses and writes for the given tags and
      templates. */
  ghost function ExportText(tags: seq<string>, templates: map<string, seq<string>>): string {
    ArgConfig(TagsText(tags), TemplatesText(templates))
  }

  /** No default tag holds a '%', so none can be read as a place marker. */
  predicate NoMarkerTags(tags: seq<string>) {
    forall t :: t in tags ==> NoPercent(t)
  }

  predicate PlainConfig(tags: seq<string>, templates: map<string, seq<string>>) {
    && (forall t :: t in tags ==> PlainText(t))
    && (forall k :: k in templates ==> PlainText(k) && forall t :: t in templates[k] ==> PlainText(t))
  }

  // ------------------------------------------------------------ catalogue

  /** The record a sidecar object describes for the document kept in folder
      dir: tags, comment and name default to empty when missing or not of
      the right kind, and the path is the name inside dir. */
  function DocFromSidecar(dir: string, obj: map<string, Json>): (d: DocInfo)
    ensures d.filePath == PathJoin(dir, d.fileName)
    ensures Field(obj, TagsKey).JArray? ==> d.tags == AsStrings(obj[TagsKey].items)
    ensures !Field(obj, TagsKey).JArray? ==> d.tags == []
    ensures Field(obj, CommentKey).JString? ==> d.comment == obj[CommentKey].s
    ensures !Field(obj, CommentKey).JString? ==> d.comment == ""
    ensures Field(obj, FilenameKey).JString? ==> d.fileName == obj[FilenameKey].s
    ensures !Field(obj, FilenameKey).JString? ==> d.fileName == "" && d.filePath == PathJoin(dir, "")
  {
    var tv := Field(obj, TagsKey);
    var cv := Field(obj, CommentKey);
    var fv := Field(obj, FilenameKey);
    var name := if fv.JString? then fv.s else "";
    DocInfo(PathJoin(dir, name), name,
            if tv.JArray? then AsStrings(tv.items) else [],
            if cv.JString? then cv.s else "")
  }

  /** The sidecar object finishUpload writes for a record. */
  function SidecarOf(d: DocInfo): map<string, Json> {
    map[CommentKey := JString(d.comment), FilenameKey := JString(d.fileName), TagsKey := JArray(Strings(d.tags))]
  }

  /** The catalogue read from the sub-folders names, in that order: one
      record per folder whose info.json holds a non-empty object. */
  function CatalogueOf(docsPath: string, names: seq<string>, folders: map<string, Option<Json>>): (r: seq<DocInfo>)
    requires forall n :: n in names ==> n in folders
    ensures |r| <= |names|
  {
    if names == [] then []
    else
      var init := CatalogueOf(docsPath, names[..|names| - 1], folders);
      var name := names[|names| - 1];
      var obj := ObjectOf(folders[name]);
      if obj == map[] then init else init + [DocFromSidecar(PathJoin(docsPath, name), obj)]
  }

  /** A sub-folder that makes it into the catalogue, and its record. */
  predicate ListedAs(docsPath: string, folders: map<string, Option<Json>>, n: string, d: DocInfo) {
    n in folders && ObjectOf(folders[n]) != map[] && d == DocFromSidecar(PathJoin(docsPath, n), ObjectOf(folders[n]))
  }

  class SaveData {
    var workingFolder: string
    var defaultTags: seq<string>
    var templates: map<string, seq<string>>
    var folderDocs: seq<DocInfo>
    /** The number of the last folder created under docs. */
    var docsCount: nat

    constructor (workingFolder: string)
      ensures this.workingFolder == workingFolder
      ensures defaultTags == [] && templates == map[] && folderDocs == [] && docsCount == 0
    {
      this.workingFolder := workingFolder;
      defaultTags := [];
      templates := map[];
      folderDocs := [];
      docsCount := 0;
    }

    /** getConfigFilePath: config.json in the working folder when that folder
        exists, in the base folder otherwise. */
    function ConfigFilePath(workingExists: bool): (p: string)
      reads this
      ensures workingExists ==> p == workingFolder + "/config.json"
      ensures !workingExists ==> p == "base/config.json"
    {
      PathJoin(if workingExists then workingFolder else BaseFolder, ConfigFile)
    }

    /** getDocsFilePath: the docs folder, chosen the same way. */
    function DocsFilePath(workingExists: bool): (p: string)
      reads this
      ensures workingExists ==> p == workingFolder + "/docs"
      ensures !workingExists ==> p == "base/docs"
    {
      PathJoin(if workingExists then workingFolder else BaseFolder, DocsFolder)
    }

    /** loadConfig: the default tags become the document's tags, sorted; the
        document's templates are written over the ones already held, and
        templates it does not name are kept. */
    method LoadConfig(doc: Option<Json>)
      modifies this
      ensures defaultTags == SortStrings(ConfigTags(doc))
      ensures templates == old(templates) + ConfigTemplates(doc)
      ensures workingFolder == old(workingFolder) && folderDocs == old(folderDocs) && docsCount == old(docsCount)
    {
      defaultTags := [];
      var obj := ObjectOf(doc);
      if obj != map[] {
        var tagsValue := Field(obj, TagsKey);
        if tagsValue.JArray? {
          var items := tagsValue.items;
          var i := 0;
          while i < |items|
            invariant 0 <= i <= |items|
            invariant defaultTags == AsStrings(items[..i])
            invariant templates == old(templates)
            invariant workingFolder == old(workingFolder) && folderDocs == old(folderDocs) && docsCount == old(docsCount)
          {
            defaultTags := defaultTags + [AsString(items[i])];
            i := i + 1;
          }
          assert items[..i] == items;
        } else {
          assert ConfigTags(doc) == [];
        }
        assert defaultTags == ConfigTags(doc);
        var templatesValue := Field(obj, TemplatesKey);
        if templatesValue.JObject? {
          var fields := templatesValue.fields;
          var pending := fields.Keys;
          ghost var done: set<string> := {};
          while pending != {}
            invariant pending + done == fields.Keys && pending !! done
            invariant templates == old(templates) + TemplateLists(fields, done)
            invariant defaultTags == ConfigTags(doc)
            invariant workingFolder == old(workingFolder) && folderDocs == old(folderDocs) && docsCount == old(docsCount)
            decreases pending
          {
            var k :| k in pending;
            TemplateListsStep(old(templates), fields, done, k);
            templates := templates[k := AsStringList(fields[k])];
            pending, done := pending - {k}, done + {k};
          }
          assert done == fields.Keys;
          assert TemplateLists(fields, done) == ConfigTemplates(doc);
        } else {
          assert ConfigTemplates(doc) == map[];
          NoTemplateLists(old(templates));
        }
      } else {
        assert ConfigTags(doc) == [] && ConfigTemplates(doc) == map[];
        NoTemplateLists(old(templates));
      }
      assert defaultTags == ConfigTags(doc);
      defaultTags := SortStrings(defaultTags);
    }

    /** exportTagsToFile: renders the tags and the templates into the
        configuration text; the result is whether that text is a JSON
        document, whether or not the file can then be written. written is
        the document stored in the file. */
    method ExportTagsToFile(canWrite: bool) returns (ok: bool, written: Option<Json>)
      ensures ok <==> ParseDocument(ExportText(defaultTags, templates)).Some?
      ensures written == if ok && canWrite then ParseDocument(ExportText(defaultTags, templates)) else None
    {
      var tagsStr := "";
      if defaultTags != [] {
        tagsStr := "\"" + Join(defaultTags, "\", \"") + "\"";
      }
      var templatesStr := "";
      var pending := templates.Keys;
      ghost var done: seq<string> := [];
      while pending != {}
        invariant pending <= templates.Keys
        invariant forall k :: k in done ==> k in templates
        invariant SortedSet(templates.Keys) == done + SortedSet(pending)
        invariant templatesStr == Join(Members(done, templates), ", ")
        invariant templatesStr == [] <==> done == []
        decreases pending
      {
        ghost var least := MinOf(pending);
        var k :| k in pending && forall o :: o in pending ==> LexLe(k, o);
        SortedSetStep(SortedSet(templates.Keys), done, pending, k);
        var value := templates[k];
        ghost var before := templatesStr;
        if templatesStr != [] {
          templatesStr := templatesStr + ", ";
        }
        ghost var separated := templatesStr;
        var items := "";
        if value != [] {
          items := "\"" + Join(value, "\", \"") + "\"";
        }
        templatesStr := templatesStr + "\"" + k + "\":[" + items + "]";
        MemberPieces(separated, k, value, items);
        AppendMember(done, k, templates, before);
        done := done + [k];
        pending := pending - {k};
      }
      assert done == SortedSet(templates.Keys);
      var text := ArgConfig(tagsStr, templatesStr);
      var doc := ParseDocument(text);
      ok := doc.Some?;
      written := if ok && canWrite then doc else None;
    }

    /** loadFilesData: the catalogue is rebuilt from scratch, one record per
        sub-folder of the docs folder whose info.json holds a non-empty
        object, in listing order. */
    method LoadFilesData(workingExists: bool, folders: map<string, Option<Json>>)
      modifies this
      ensures folderDocs == CatalogueOf(DocsFilePath(workingExists), SortedSet(folders.Keys), folders)
      ensures workingFolder == old(workingFolder) && defaultTags == old(defaultTags)
      ensures templates == old(templates) && docsCount == old(docsCount)
    {
      var docsPath := DocsFilePath(workingExists);
      folderDocs := [];
      var pending := folders.Keys;
      ghost var done: seq<string> := [];
      while pending != {}
        invariant pending <= folders.Keys
        invariant forall n :: n in done ==> n in folders
        invariant SortedSet(folders.Keys) == done + SortedSet(pending)
        invariant folderDocs == CatalogueOf(docsPath, done, folders)
        invariant workingFolder == old(workingFolder) && defaultTags == old(defaultTags)
        invariant templates == old(templates) && docsCount == old(docsCount)
        decreases pending
      {
        ghost var least := MinOf(pending);
        var name :| name in pending && forall o :: o in pending ==> LexLe(name, o);
        SortedSetStep(SortedSet(folders.Keys), done, pending, name);
        var obj := ObjectOf(folders[name]);
        if obj != map[] {
          folderDocs := folderDocs + [DocFromSidecar(PathJoin(docsPath, name), obj)];
        }
        assert (done + [name])[..|done|] == done;
        done := done + [name];
        pending := pending - {name};
      }
      assert done == SortedSet(folders.Keys);
    }
  }

  /** The pieces the writer appends for one template make up its member text. */
  lemma MemberPieces(separated: string, k: string, value: seq<string>, items: string)
    requires items == if value != [] then QuotedItems(value) else ""
    ensures separated + "\"" + k + "\":[" + items + "]" == separated + MemberText(k, ArrayText(value))
  {
  }

  /** One more member appended to the rendered templates. */
  lemma AppendMember(done: seq<string>, k: string, templates: map<string, seq<string>>, before: string)
    requires k in templates && forall x :: x in done ==> x in templates
    requires before == Join(Members(done, templates), ", ")
    requires before == [] <==> done == []
    ensures forall x :: x in done + [k] ==> x in templates
    ensures Join(Members(done + [k], templates), ", ")
         == before + (if before == [] then "" else ", ") + MemberText(k, ArrayText(templates[k]))
  {
    var member := MemberText(k, ArrayText(templates[k]));
    assert Members(done + [k], templates) == Members(done, templates) + [member];
    if done == [] {
      assert Members(done + [k], templates) == [member];
    } else {
      JoinSnoc(Members(done, templates), ", ", member);
    }
  }
}

module SaveStoreProperties {
  import opened Options
  import opened Text
  import opened Ordering
  import opened JsonText
  import opened Placeholders
  import opened Docs
  import opened SaveStore

  /** The document the configuration text parses to. */
  lemma ConfigDocument(tags: seq<string>, templates: map<string, seq<string>>)
    requires PlainConfig(tags, templates)
    ensures ParseDocument(ConfigText(tags, templates))
         == Some(JObject(map[TagsKey := JArray(Strings(tags))]
                         + map[TemplatesKey := JObject(FieldsOf(SortedSet(templates.Keys), templates))]))
  {
    var ks := SortedSet(templates.Keys);
    var f := FieldsOf(ks, templates);
    var a := ArrayText(tags);
    var o := ObjectText(Members(ks, templates));
    var more := MemberText(TemplatesKey, o) + "}";
    var body := MemberText(TagsKey, a) + ", " + more;
    ConfigTextShape(tags, templates);
    KeysPlain();
    TemplatesMemberReadBack(TemplatesKey, templates);
    ArrayReadBack(tags, ", " + more);
    assert a + ", " + more == ArrayText(tags) + (", " + more);
    MemberNext(TagsKey, a, JArray(Strings(tags)), more, map[TemplatesKey := JObject(f)], "");
    ObjectOfMembers(body, map[TagsKey := JArray(Strings(tags))] + map[TemplatesKey := JObject(f)], "");
  }

  lemma ConfigTextShape(tags: seq<string>, templates: map<string, seq<string>>)
    ensures ConfigText(tags, templates)
         == "{" + (MemberText(TagsKey, ArrayText(tags)) + ", "
                   + (MemberText(TemplatesKey, ObjectText(Members(SortedSet(templates.Keys), templates))) + "}"))
  {
    var m1 := MemberText(TagsKey, ArrayText(tags));
    var m2 := MemberText(TemplatesKey, ObjectText(Members(SortedSet(templates.Keys), templates)));
    assert ConfigText(tags, templates) == "{" + m1 + ", " + m2 + "}";
  }

  /** An object of templates as the last member of the text reads back. */
  lemma TemplatesMemberReadBack(key: string, templates: map<string, seq<string>>)
    requires PlainText(key)
    requires forall k :: k in templates ==> PlainText(k) && forall t :: t in templates[k] ==> PlainText(t)
    ensures ParseMembers(MemberText(key, ObjectText(Members(SortedSet(templates.Keys), templates))) + "}")
         == Some((map[key := JObject(FieldsOf(SortedSet(templates.Keys), templates))], ""))
  {
    var ks := SortedSet(templates.Keys);
    assert forall k :: k in ks ==> k in templates;
    assert PlainEntries(ks, templates);
    ObjectReadBack(ks, templates, "}");
    MemberAtEnd(key, ObjectText(Members(ks, templates)), JObject(FieldsOf(ks, templates)));
  }

  lemma KeysPlain()
    ensures PlainText(TagsKey) && PlainText(TemplatesKey)
  {
  }

  /** Round trip: for tags and template names free of quotes, backslashes
      and control characters, the configuration text is a JSON document and
      reading it back gives the same tags, in the same order, and the same
      templates. */
  lemma ConfigRoundTrip(tags: seq<string>, templates: map<string, seq<string>>)
    requires PlainConfig(tags, templates)
    ensures ParseDocument(ConfigText(tags, templates)).Some?
    ensures ConfigTags(ParseDocument(ConfigText(tags, templates))) == tags
    ensures ConfigTemplates(ParseDocument(ConfigText(tags, templates))) == templates
  {
    var f := FieldsOf(SortedSet(templates.Keys), templates);
    ConfigDocument(tags, templates);
    TagsReadBack(tags, f);
    assert f.Keys == templates.Keys;
    TemplatesReadBack(tags, templates, f);
  }

  /** The tags of the parsed document are the tags written. */
  lemma TagsReadBack(tags: seq<string>, f: map<string, Json>)
    ensures ConfigTags(Some(JObject(map[TagsKey := JArray(Strings(tags))] + map[TemplatesKey := JObject(f)]))) == tags
  {
    var fields := map[TagsKey := JArray(Strings(tags))] + map[TemplatesKey := JObject(f)];
    assert TagsKey != TemplatesKey;
    assert Field(fields, TagsKey) == JArray(Strings(tags));
  }

  /** The templates of the parsed document are the templates written. */
  lemma TemplatesReadBack(tags: seq<string>, templates: map<string, seq<string>>, f: map<string, Json>)
    requires f.Keys == templates.Keys
    requires forall k :: k in f ==> f[k] == JArray(Strings(templates[k]))
    ensures ConfigTemplates(Some(JObject(map[TagsKey := JArray(Strings(tags))] + map[TemplatesKey := JObject(f)])))
         == templates
  {
    var fields := map[TagsKey := JArray(Strings(tags))] + map[TemplatesKey := JObject(f)];
    assert Field(fields, TemplatesKey) == JObject(f);
    var read := map k | k in f :: AsStringList(f[k]);
    assert read.Keys == templates.Keys;
    forall k | k in read ensures read[k] == templates[k] {
      assert AsStringList(f[k]) == AsStrings(Strings(templates[k]));
    }
    assert read == templates;
  }

  // --------------------------------------------------------- QString::arg

  /** Round trip of the text as written: when no default tag holds a '%',
      the exported text is the intended one, and for plain tags and
      templates it reads back as it was. */
  lemma ExportRoundTrip(tags: seq<string>, templates: map<string, seq<string>>)
    requires PlainConfig(tags, templates) && NoMarkerTags(tags)
    ensures ExportText(tags, templates) == ConfigText(tags, templates)
    ensures ParseDocument(ExportText(tags, templates)).Some?
    ensures ConfigTags(ParseDocument(ExportText(tags, templates))) == tags
    ensures ConfigTemplates(ParseDocument(ExportText(tags, templates))) == templates
  {
    TagsTextNoPercent(tags);
    ConfigRoundTrip(tags, templates);
  }

  lemma TagsTextNoPercent(tags: seq<string>)
    requires NoMarkerTags(tags)
    ensures NoPercent(TagsText(tags))
  {
    if tags != [] {
      var j := Join(tags, "\", \"");
      JoinNoPercent(tags, "\", \"");
      NoPercentJoin("\"", j);
      NoPercentJoin("\"" + j, "\"");
    }
  }

  lemma {:induction false} JoinNoPercent(parts: seq<string>, sep: string)
    requires forall t :: t in parts ==> NoPercent(t)
    requires NoPercent(sep)
    ensures NoPercent(Join(parts, sep))
  {
    if |parts| == 1 {
      assert parts[0] in parts;
    } else if |parts| > 1 {
      assert parts[0] in parts;
      assert forall t :: t in parts[1..] ==> t in parts;
      JoinNoPercent(parts[1..], sep);
      NoPercentJoin(parts[0], sep);
      NoPercentJoin(parts[0] + sep, Join(parts[1..], sep));
    }
  }

  /** What the second substitution leaves of a tag q%2q when there are no
      templates: the marker inside it is replaced too. */
  lemma ArgConfigMarkerTag(q: string)
    requires NoPercent(q) && q != [] && !IsDigit(q[0])
    ensures ArgConfig(q + ("%2" + q), "") == FillConfig(q + q, "")
  {
    var x := q + ("%2" + q);
    ArgConfigFirst(x);
    PiecesPlain();
    var head := Pre() + q;
    NoPercentJoin(Pre(), q);
    NoPercentJoin(q, Mid());
    RegroupMarker(Pre(), q, "%2", Mid(), "%2" + Post());
    assert (q + Mid())[0] == q[0];
    SecondSubstitutionTwice(head, q + Mid(), Post(), "");
    FillShape(q + q, "");
    RegroupDropped(Pre(), q, Mid(), "" + Post());
  }

  /** The text left when a marker between two quotes is replaced by
      nothing, regrouped. */
  lemma RegroupDropped(p: string, q: string, m: string, r: string)
    ensures (p + q) + ("" + ((q + m) + r)) == p + (q + q + (m + r))
  {
  }

  /** A tag that reads "%2" is taken for the templates' marker by the second
      substitution: with no templates it is exported as the empty tag, while
      the intended text keeps it. */
  lemma ArgConfigLosesMarkerTag()
    ensures ExportText(["%2"], map[]) == ConfigText([""], map[])
    ensures ConfigTags(ParseDocument(ExportText(["%2"], map[]))) == [""]
    ensures ConfigTags(ParseDocument(ConfigText(["%2"], map[]))) == ["%2"]
  {
    assert TagsText(["%2"]) == "\"" + ("%2" + "\"");
    assert TemplatesText(map[]) == "";
    assert TagsText([""]) == "\"" + "\"";
    ArgConfigMarkerTag("\"");
    assert PlainConfig([""], map[]);
    ConfigRoundTrip([""], map[]);
    assert PlainConfig(["%2"], map[]);
    ConfigRoundTrip(["%2"], map[]);
  }

  /** A tag that reads "%1" is taken for the lowest marker by the second
      substitution: the templates' marker is left in the text, which is then
      not a JSON document, while the intended text is one. */
  lemma ArgConfigRejectsMarkerTag()
    ensures ParseDocument(ExportText(["%1"], map[])) == None
    ensures ParseDocument(ConfigText(["%1"], map[])).Some?
  {
    var x := TagsText(["%1"]);
    assert x == "\"" + ("%1" + "\"");
    assert TemplatesText(map[]) == "";
    ArgConfigFirst(x);
    PiecesPlain();
    var head := Pre() + "\"";
    var mid := "\"" + Mid();
    NoPercentJoin(Pre(), "\"");
    NoPercentJoin("\"", Mid());
    RegroupMarker(Pre(), "\"", "%1", Mid(), "%2" + Post());
    FirstSubstitution(head, mid, Post(), "");
    RegroupDropped(Pre(), "\"", Mid(), "%2" + Post());
    FillShape("\"" + "\"", "%2");
    LeftMarkerFails(ExportText(["%1"], map[]));
    assert PlainConfig(["%1"], map[]);
    ConfigRoundTrip(["%1"], map[]);
  }

  /** The text {"tags":[""], "templates":{%2}} is not a JSON document: the
      member "templates" holds no value a JSON reader accepts. */
  lemma LeftMarkerFails(t: string)
    requires t == FillConfig("\"" + "\"", "%2")
    ensures ParseDocument(t) == None
  {
    var a := ArrayText([""]);
    var value := "{" + "%2" + "}";
    LeftMarkerShape(t, a, value);
    var more := MemberText(TemplatesKey, value) + "}";
    var s1 := MemberText(TagsKey, a) + (", " + more);
    MembersFail(a, value);
    ObjectFails(s1);
  }

  lemma LeftMarkerShape(t: string, a: string, value: string)
    requires t == FillConfig("\"" + "\"", "%2")
    requires a == ArrayText([""]) && value == "{" + "%2" + "}"
    ensures t == "{" + (MemberText(TagsKey, a) + (", " + (MemberText(TemplatesKey, value) + "}")))
  {
    assert Join([""], "\", \"") == "";
    assert a == "[" + ("\"" + "\"") + "]";
    Regroup(MemberText(TagsKey, a), ", ", MemberText(TemplatesKey, value), "}");
  }

  /** The members of that text: the tags read, the templates' value fails. */
  lemma MembersFail(a: string, value: string)
    requires a == ArrayText([""]) && value == "{" + "%2" + "}"
    ensures var s1 := MemberText(TagsKey, a) + (", " + (MemberText(TemplatesKey, value) + "}"));
            s1 != [] && s1[0] == '"' && ParseMembers(s1) == None
  {
    KeysPlain();
    var more := MemberText(TemplatesKey, value) + "}";
    var after2 := ":" + value + "}";
    MemberTextParts(TemplatesKey, value, "}");
    ScanQuoted(TemplatesKey, after2);
    assert value + "}" == "{" + "%2}}";
    NotAMember("%2}}");
    MemberValueFails(more, TemplatesKey, after2);
    var tail := ", " + more;
    var s1 := MemberText(TagsKey, a) + tail;
    var after1 := ":" + a + tail;
    MemberTextParts(TagsKey, a, tail);
    ScanQuoted(TagsKey, after1);
    ArrayReadBack([""], tail);
    MemberRestFails(s1, TagsKey, after1, JArray(Strings([""])), more);
  }

  // --------------------------------------------------------- catalogue

  /** A sidecar written for a record reads back as that record, its path
      now pointing into the folder the sidecar sits in. */
  lemma SidecarReadBack(dir: string, d: DocInfo)
    ensures SidecarOf(d) != map[]
    ensures DocFromSidecar(dir, SidecarOf(d)) == d.(filePath := PathJoin(dir, d.fileName))
  {
    assert TagsKey in SidecarOf(d);
  }

  /** The catalogue holds exactly the records of the listed folders whose
      info.json holds a non-empty object. */
  lemma {:induction false} CatalogueRecords(docsPath: string, names: seq<string>,
                                            folders: map<string, Option<Json>>, d: DocInfo)
    requires forall n :: n in names ==> n in folders
    ensures d in CatalogueOf(docsPath, names, folders)
        <==> exists n :: n in names && ListedAs(docsPath, folders, n, d)
  {
    if names != [] {
      var init := names[..|names| - 1];
      var last := names[|names| - 1];
      assert forall n :: n in names <==> n in init || n == last;
      CatalogueRecords(docsPath, init, folders, d);
      var c := CatalogueOf(docsPath, init, folders);
      var obj := ObjectOf(folders[last]);
      assert CatalogueOf(docsPath, names, folders)
          == if obj == map[] then c else c + [DocFromSidecar(PathJoin(docsPath, last), obj)];
      if ListedAs(docsPath, folders, last, d) {
        assert d in CatalogueOf(docsPath, names, folders);
      }
    }
  }
}
