/*
 * The editor screen (editscreen.cpp): the list of default tags and the
 * list of named templates are edited on screen, then written back into
 * the store and the config file.
 */
module Edit {
  import opened Options
  import opened Text
  import opened Ordering
  import opened Rows
  import opened JsonText
  import opened SaveStore
  import opened SaveStoreProperties

  /** An entry of the templates list: its name and its tags. */
  datatype TemplateItem = TemplateItem(name: string, tags: seq<string>)

  function ItemName(t: TemplateItem): string {
    t.name
  }

  /** The templates list shown for the keys ks of a template map. */
  function ItemsOf(ks: seq<string>, templates: map<string, seq<string>>): (items: seq<TemplateItem>)
    requires forall k :: k in ks ==> k in templates
    ensures |items| == |ks|
    ensures forall i :: 0 <= i < |ks| ==> items[i] == TemplateItem(ks[i], templates[ks[i]])
  {
    seq(|ks|, i requires 0 <= i < |ks| => TemplateItem(ks[i], templates[ks[i]]))
  }

  /** addTags before sorting: the typed tokens, then every listed tag that
      is not among the tags gathered so far. */
  function MergeTags(tags: seq<string>, items: seq<string>): (r: seq<string>)
    ensures |tags| <= |r| && r[..|tags|] == tags
  {
    if items == [] then tags
    else
      var acc := MergeTags(tags, items[..|items| - 1]);
      var last := items[|items| - 1];
      if last in acc then acc
      else
        assert (acc + [last])[..|tags|] == acc[..|tags|];
        acc + [last]
  }

  /** The list without its first item named name (unchanged when there is
      none). */
  function RemoveFirstNamed(items: seq<TemplateItem>, name: string): (r: seq<TemplateItem>)
    ensures |r| <= |items|
  {
    if items == [] then []
    else if items[0].name == name then items[1..]
    else [items[0]] + RemoveFirstNamed(items[1..], name)
  }

  /** One removal per name, in the order of names. */
  function RemoveNamed(items: seq<TemplateItem>, names: seq<string>): seq<TemplateItem>
    decreases |names|
  {
    if names == [] then items
    else RemoveNamed(RemoveFirstNamed(items, names[0]), names[1..])
  }

  /** One new item per name, all carrying tags. */
  function NewItems(names: seq<string>, tags: seq<string>): (r: seq<TemplateItem>)
    ensures |r| == |names|
    ensures forall k :: 0 <= k < |names| ==> r[k] == TemplateItem(names[k], tags)
  {
    seq(|names|, k requires 0 <= k < |names| => TemplateItem(names[k], tags))
  }

  /** addTemplates: the named templates replace the items of the same name,
      and the list is sorted by name. */
  function TemplatesAdded(items: seq<TemplateItem>, namesText: string, tagsText: string): seq<TemplateItem> {
    var names := SortStrings(Tokens(namesText));
    SortBy(RemoveNamed(items, names) + NewItems(names, SortStrings(Tokens(tagsText))), ItemName)
  }

  /** The template map finishEdit rebuilds from the list: one key per name,
      a later item replacing an earlier one of the same name. */
  function TemplatesOf(items: seq<TemplateItem>): (m: map<string, seq<string>>)
    ensures forall n :: n in m <==> exists k :: 0 <= k < |items| && items[k].name == n
  {
    if items == [] then map[]
    else
      var init := items[..|items| - 1];
      var last := items[|items| - 1];
      var m := TemplatesOf(init)[last.name := last.tags];
      assert forall k :: 0 <= k < |init| ==> init[k] == items[k];
      m
  }

  /** What pressing OK leads to. */
  datatype EditOutcome =
    | NoConfig  // no config file: the store changes, nothing is written
    | Invalid   // the text built does not parse
    | Saved     // written and read back

  /** The loop of the editor's constructor over the template map: one item
      per template, in key order. */
  method ListTemplates(templates: map<string, seq<string>>) returns (items: seq<TemplateItem>)
    ensures items == ItemsOf(SortedSet(templates.Keys), templates)
  {
    items := [];
    var pending := templates.Keys;
    ghost var done: seq<string> := [];
    while pending != {}
      invariant pending <= templates.Keys
      invariant forall n :: n in done ==> n in templates
      invariant SortedSet(templates.Keys) == done + SortedSet(pending)
      invariant items == ItemsOf(done, templates)
      decreases pending
    {
      ghost var least := MinOf(pending);
      var key :| key in pending && forall o :: o in pending ==> LexLe(key, o);
      ListStep(templates, done, pending, key);
      items := items + [TemplateItem(key, templates[key])];
      done := done + [key];
      pending := pending - {key};
    }
  }

  class EditScreen {
    const save: SaveData
    /** The default tags as listed. */
    var tagItems: seq<string>
    /** The templates as listed. */
    var templateItems: seq<TemplateItem>

    /** The lists start from the store: the default tags in their order,
        the templates in key order. */
    constructor (save: SaveData)
      ensures this.save == save
      ensures tagItems == save.defaultTags
      ensures templateItems == ItemsOf(SortedSet(save.templates.Keys), save.templates)
    {
      var items := ListTemplates(save.templates);
      this.save := save;
      tagItems := save.defaultTags;
      templateItems := items;
    }

    /** addTags: nothing happens for empty text; otherwise the typed tags
        and the listed ones not among them make up the new list, sorted. */
    method AddTags(text: string)
      modifies this
      ensures text == [] ==> tagItems == old(tagItems)
      ensures text != [] ==> tagItems == SortStrings(MergeTags(Tokens(text), old(tagItems)))
      ensures templateItems == old(templateItems)
    {
      if text == [] {
        return;
      }
      var tags := Tokens(text);
      var i := 0;
      while i < |tagItems|
        invariant 0 <= i <= |tagItems|
        invariant tagItems == old(tagItems) && templateItems == old(templateItems)
        invariant tags == MergeTags(Tokens(text), tagItems[..i])
      {
        var itemText := tagItems[i];
        assert tagItems[..i + 1][..i] == tagItems[..i];
        if itemText !in tags {
          tags := tags + [itemText];
        }
        i := i + 1;
      }
      assert tagItems[..i] == tagItems;
      tags := SortStrings(tags);
      tagItems := tags;
    }

    /** addTemplates: nothing happens when either box is empty; otherwise
        each typed name removes the first item of that name, then every name
        is added with the typed tags, sorted, and the list is sorted by name. */
    method AddTemplates(tagsText: string, templatesText: string)
      modifies this
      ensures tagsText == [] || templatesText == [] ==> templateItems == old(templateItems)
      ensures tagsText != [] && templatesText != [] ==>
                templateItems == TemplatesAdded(old(templateItems), tagsText, templatesText)
      ensures tagItems == old(tagItems)
    {
      if tagsText == [] || templatesText == [] {
        return;
      }
      var tags := SortStrings(Tokens(tagsText));
      var templateTags := SortStrings(Tokens(templatesText));
      RemoveItems(tags);
      AddItems(tags, templateTags);
      templateItems := SortBy(templateItems, ItemName);
    }

    /** The first loop of addTemplates: one removal per name. */
    method RemoveItems(tags: seq<string>)
      modifies this
      ensures templateItems == RemoveNamed(old(templateItems), tags)
      ensures tagItems == old(tagItems)
    {
      var n := 0;
      while n < |tags|
        invariant 0 <= n <= |tags|
        invariant tagItems == old(tagItems)
        invariant RemoveNamed(templateItems, tags[n..]) == RemoveNamed(old(templateItems), tags)
      {
        RemoveFirstItem(tags[n]);
        assert tags[n..][1..] == tags[n + 1..];
        n := n + 1;
      }
      assert RemoveNamed(templateItems, tags[n..]) == templateItems;
    }

    /** The second loop of addTemplates: a new item per name, carrying
        templateTags. */
    method AddItems(tags: seq<string>, templateTags: seq<string>)
      modifies this
      ensures templateItems == old(templateItems) + NewItems(tags, templateTags)
      ensures tagItems == old(tagItems)
    {
      var n := 0;
      while n < |tags|
        invariant 0 <= n <= |tags|
        invariant tagItems == old(tagItems)
        invariant templateItems == old(templateItems) + NewItems(tags[..n], templateTags)
      {
        assert NewItems(tags[..n + 1], templateTags) == NewItems(tags[..n], templateTags) + [TemplateItem(tags[n], templateTags)];
        templateItems := templateItems + [TemplateItem(tags[n], templateTags)];
        n := n + 1;
      }
      assert tags[..n] == tags;
    }

    /** The inner loop of addTemplates: the first item named tag, if any,
        leaves the templates list. */
    method RemoveFirstItem(tag: string)
      modifies this
      ensures templateItems == RemoveFirstNamed(old(templateItems), tag)
      ensures tagItems == old(tagItems)
    {
      var i := 0;
      while i < |templateItems|
        invariant 0 <= i <= |templateItems|
        invariant templateItems == old(templateItems) && tagItems == old(tagItems)
        invariant forall k :: 0 <= k < i ==> templateItems[k].name != tag
      {
        if tag == templateItems[i].name {
          RemoveFirstAt(templateItems, tag, i);
          templateItems := templateItems[..i] + templateItems[i + 1..];
          return;
        }
        i := i + 1;
      }
      RemoveFirstAbsent(templateItems, tag);
    }

    /** deleteTags: the selected entries leave both lists, the others stay
        in order. */
    method DeleteTags(tagRows: seq<nat>, templateRows: seq<nat>)
      requires ValidRows(tagRows, |tagItems|) && ValidRows(templateRows, |templateItems|)
      modifies this
      ensures tagItems == KeepRows(old(tagItems), Elements(tagRows))
      ensures templateItems == KeepRows(old(templateItems), Elements(templateRows))
    {
      tagItems := RemoveRows(tagItems, tagRows);
      templateItems := RemoveRows(templateItems, templateRows);
    }

    /** The first part of finishEdit: the store's default tags become the
        listed tags and its templates are rebuilt from the listed items. */
    method StoreLists()
      modifies save
      ensures save.defaultTags == tagItems && save.templates == TemplatesOf(templateItems)
      ensures save.workingFolder == old(save.workingFolder) && save.folderDocs == old(save.folderDocs)
      ensures save.docsCount == old(save.docsCount)
    {
      save.defaultTags := [];
      var i := 0;
      while i < |tagItems|
        invariant 0 <= i <= |tagItems|
        invariant save.defaultTags == tagItems[..i]
        invariant save.workingFolder == old(save.workingFolder) && save.folderDocs == old(save.folderDocs)
        invariant save.docsCount == old(save.docsCount)
      {
        assert tagItems[..i + 1] == tagItems[..i] + [tagItems[i]];
        save.defaultTags := save.defaultTags + [tagItems[i]];
        i := i + 1;
      }
      assert tagItems[..i] == tagItems;
      save.templates := map[];
      i := 0;
      while i < |templateItems|
        invariant 0 <= i <= |templateItems|
        invariant save.defaultTags == tagItems
        invariant save.templates == TemplatesOf(templateItems[..i])
        invariant save.workingFolder == old(save.workingFolder) && save.folderDocs == old(save.folderDocs)
        invariant save.docsCount == old(save.docsCount)
      {
        var item := templateItems[i];
        assert templateItems[..i + 1][..i] == templateItems[..i];
        save.templates := save.templates[item.name := item.tags];
        i := i + 1;
      }
      assert templateItems[..i] == templateItems;
    }

    /** finishEdit: the store takes the listed tags and templates; when the
        config file exists it is written and, if the text was valid, read
        back. previous is what the config file holds when the new text could
        not be written to it. */
    method FinishEdit(configExists: bool, canWrite: bool, previous: Option<Json>) returns (outcome: EditOutcome)
      modifies save
      ensures !configExists ==> outcome == NoConfig
      ensures configExists ==>
                (outcome == Saved <==> ParseDocument(ExportText(tagItems, TemplatesOf(templateItems))).Some?)
      ensures outcome != Saved ==>
                save.defaultTags == tagItems && save.templates == TemplatesOf(templateItems)
      ensures outcome == Saved ==>
                var doc := if canWrite then ParseDocument(ExportText(tagItems, TemplatesOf(templateItems))) else previous;
                save.defaultTags == SortStrings(ConfigTags(doc))
                && save.templates == TemplatesOf(templateItems) + ConfigTemplates(doc)
      ensures configExists && canWrite && PlainConfig(tagItems, TemplatesOf(templateItems)) && NoMarkerTags(tagItems) ==>
                outcome == Saved && save.defaultTags == SortStrings(tagItems)
                && save.templates == TemplatesOf(templateItems)
      ensures save.workingFolder == old(save.workingFolder) && save.folderDocs == old(save.folderDocs)
      ensures save.docsCount == old(save.docsCount)
    {
      StoreLists();
      if !configExists {
        return NoConfig;
      }
      ghost var templates := save.templates;
      if PlainConfig(tagItems, templates) && NoMarkerTags(tagItems) {
        ExportRoundTrip(tagItems, templates);
        assert templates + templates == templates;
      }
      var ok, written := save.ExportTagsToFile(canWrite);
      if ok {
        save.LoadConfig(if written.Some? then written else previous);
        outcome := Saved;
      } else {
        outcome := Invalid;
      }
    }
  }

  /** One turn of the constructor's loop: the least key still pending is
      listed next. */
  lemma ListStep(templates: map<string, seq<string>>, done: seq<string>, pending: set<string>, key: string)
    requires pending <= templates.Keys
    requires forall n :: n in done ==> n in templates
    requires SortedSet(templates.Keys) == done + SortedSet(pending)
    requires key in pending && forall o :: o in pending ==> LexLe(key, o)
    ensures key in templates && forall n :: n in done + [key] ==> n in templates
    ensures SortedSet(templates.Keys) == (done + [key]) + SortedSet(pending - {key})
    ensures ItemsOf(done + [key], templates) == ItemsOf(done, templates) + [TemplateItem(key, templates[key])]
  {
    SortedSetStep(SortedSet(templates.Keys), done, pending, key);
    ItemsOfSnoc(done, key, templates);
  }

  lemma ItemsOfSnoc(ks: seq<string>, k: string, templates: map<string, seq<string>>)
    requires forall x :: x in ks ==> x in templates
    requires k in templates
    ensures forall x :: x in ks + [k] ==> x in templates
    ensures ItemsOf(ks + [k], templates) == ItemsOf(ks, templates) + [TemplateItem(k, templates[k])]
  {
    assert forall i :: 0 <= i < |ks| ==> (ks + [k])[i] == ks[i];
  }

  /** Removing the first item named name, found at row i. */
  lemma {:induction false} RemoveFirstAt(items: seq<TemplateItem>, name: string, i: nat)
    requires i < |items| && items[i].name == name
    requires forall k :: 0 <= k < i ==> items[k].name != name
    ensures RemoveFirstNamed(items, name) == items[..i] + items[i + 1..]
  {
    if i > 0 {
      RemoveFirstAt(items[1..], name, i - 1);
      assert items[..i] == [items[0]] + items[1..][..i - 1];
      assert items[i + 1..] == items[1..][i..];
    }
  }

  /** No item named name: nothing is removed. */
  lemma {:induction false} RemoveFirstAbsent(items: seq<TemplateItem>, name: string)
    requires forall k :: 0 <= k < |items| ==> items[k].name != name
    ensures RemoveFirstNamed(items, name) == items
  {
    if items != [] {
      RemoveFirstAbsent(items[1..], name);
    }
  }
}

/*
 * What the editor's operations promise.
 */
module EditProperties {
  import opened Text
  import opened Ordering
  import opened Edit

  /** addTags loses nothing and adds only typed tags: the merged list holds
      exactly the typed tags and the listed ones. */
  lemma {:induction false} MergeMembers(tags: seq<string>, items: seq<string>, x: string)
    ensures x in MergeTags(tags, items) <==> x in tags || x in items
  {
    if items != [] {
      var init := items[..|items| - 1];
      MergeMembers(tags, init, x);
      assert items == init + [items[|items| - 1]];
    }
  }

  /** A listed tag is added once at most: the tags added after the typed
      ones never repeat and were not typed. */
  lemma {:induction false} MergeAddsOnce(tags: seq<string>, items: seq<string>)
    ensures forall j, k :: |tags| <= j < |MergeTags(tags, items)| && 0 <= k < |MergeTags(tags, items)| && j != k ==>
              MergeTags(tags, items)[j] != MergeTags(tags, items)[k]
  {
    if items != [] {
      var init := items[..|items| - 1];
      MergeAddsOnce(tags, init);
      var acc := MergeTags(tags, init);
      var last := items[|items| - 1];
      if last !in acc {
        var r := acc + [last];
        forall j, k | |tags| <= j < |r| && 0 <= k < |r| && j != k ensures r[j] != r[k] {
          if j == |acc| {
            assert r[k] == acc[k] && acc[k] in acc;
          } else if k == |acc| {
            assert r[j] == acc[j] && acc[j] in acc;
          } else {
            assert r[j] == acc[j] && r[k] == acc[k];
          }
        }
      }
    }
  }

  /** After addTags with text, every tag listed before is still listed, the
      list is sorted, and it holds nothing but typed and listed tags. */
  lemma AddTagsKeeps(text: string, before: seq<string>, x: string)
    requires text != []
    ensures Sorted(SortStrings(MergeTags(Tokens(text), before)))
    ensures x in SortStrings(MergeTags(Tokens(text), before)) <==> x in Tokens(text) || x in before
  {
    var merged := MergeTags(Tokens(text), before);
    MergeMembers(Tokens(text), before, x);
    assert x in merged <==> x in multiset(merged);
    assert x in SortStrings(merged) <==> x in multiset(SortStrings(merged));
  }

  /** Removing the first item of a name keeps every item of another name. */
  lemma {:induction false} RemoveFirstKeeps(items: seq<TemplateItem>, name: string, x: TemplateItem)
    requires x.name != name
    ensures multiset(RemoveFirstNamed(items, name))[x] == multiset(items)[x]
  {
    if items != [] {
      RemoveFirstKeeps(items[1..], name, x);
      assert items == [items[0]] + items[1..];
    }
  }

  /** An item whose name is not among the removed names survives every
      removal. */
  lemma {:induction false} RemoveNamedKeeps(items: seq<TemplateItem>, names: seq<string>, x: TemplateItem)
    requires x.name !in names
    ensures multiset(RemoveNamed(items, names))[x] == multiset(items)[x]
    decreases |names|
  {
    if names != [] {
      RemoveFirstKeeps(items, names[0], x);
      RemoveNamedKeeps(RemoveFirstNamed(items, names[0]), names[1..], x);
    }
  }

  /** Removing the first item of a name takes out one item, of that name,
      when there is one. */
  lemma {:induction false} RemoveFirstCount(items: seq<TemplateItem>, name: string)
    ensures (exists k :: 0 <= k < |items| && items[k].name == name) ==> |RemoveFirstNamed(items, name)| == |items| - 1
    ensures (forall k :: 0 <= k < |items| ==> items[k].name != name) ==> RemoveFirstNamed(items, name) == items
  {
    if items != [] {
      RemoveFirstCount(items[1..], name);
      if items[0].name != name {
        assert forall k :: 0 < k < |items| ==> items[1..][k - 1] == items[k];
      }
    }
  }

  /** addTemplates: the list comes out sorted by name; every typed name has
      an item with the typed tags; every item of a name that was not typed
      is still there as often as before. */
  lemma TemplatesAddedSpec(items: seq<TemplateItem>, namesText: string, tagsText: string, x: TemplateItem)
    ensures SortedBy(TemplatesAdded(items, namesText, tagsText), ItemName)
    ensures forall n :: n in Tokens(namesText) ==>
              TemplateItem(n, SortStrings(Tokens(tagsText))) in TemplatesAdded(items, namesText, tagsText)
    ensures x.name !in Tokens(namesText) ==>
              multiset(TemplatesAdded(items, namesText, tagsText))[x] == multiset(items)[x]
  {
    var names := SortStrings(Tokens(namesText));
    var tt := SortStrings(Tokens(tagsText));
    var kept := RemoveNamed(items, names);
    var all := kept + NewItems(names, tt);
    var r := TemplatesAdded(items, namesText, tagsText);
    assert multiset(r) == multiset(all);
    forall n | n in Tokens(namesText) ensures TemplateItem(n, tt) in r {
      assert n in multiset(Tokens(namesText));
      assert n in multiset(names);
      var k :| 0 <= k < |names| && names[k] == n;
      assert all[|kept| + k] == TemplateItem(n, tt);
      assert TemplateItem(n, tt) in multiset(all);
    }
    if x.name !in Tokens(namesText) {
      assert x.name !in multiset(Tokens(namesText));
      assert x.name !in names;
      RemoveNamedKeeps(items, names, x);
      assert x !in NewItems(names, tt);
      assert multiset(all)[x] == multiset(kept)[x] + multiset(NewItems(names, tt))[x];
    }
  }

  /** finishEdit's template map: each name maps to the tags of the last item
      with that name. */
  lemma {:induction false} TemplatesOfLast(items: seq<TemplateItem>, k: nat)
    requires k < |items|
    requires forall l :: k < l < |items| ==> items[l].name != items[k].name
    ensures items[k].name in TemplatesOf(items) && TemplatesOf(items)[items[k].name] == items[k].tags
  {
    var init := items[..|items| - 1];
    if k < |items| - 1 {
      TemplatesOfLast(init, k);
    }
  }
}
