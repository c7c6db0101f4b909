/*
 * The search screen (searchscreen.cpp): filters the catalogue by the
 * tokens typed into the input box, removes selected results and names the
 * entries of the zip archive the results are exported to.
 */
module Search {
  import opened Text
  import opened Docs
  import opened Rows
  import opened SaveStore

  /** What a search looks at: tags in greedy or strict mode, the comment,
      or the file name. */
  datatype Criterion = AnyTag | AllTags | CommentHas | NameHas

  /** One token hits a record: an exact tag, or a substring of the comment
      or of the name. */
  predicate Hit(c: Criterion, d: DocInfo, t: string) {
    match c
    case AnyTag => t in d.tags
    case AllTags => t in d.tags
    case CommentHas => Contains(d.comment, t)
    case NameHas => Contains(d.fileName, t)
  }

  /** The strict mode needs every token to hit, the other searches one. */
  predicate Matches(c: Criterion, d: DocInfo, ts: seq<string>) {
    if c == AllTags then forall t :: t in ts ==> Hit(c, d, t)
    else exists t :: t in ts && Hit(c, d, t)
  }

  /** The records of docs that match, in catalogue order. */
  function Filter(docs: seq<DocInfo>, c: Criterion, ts: seq<string>): (r: seq<DocInfo>)
    ensures |r| <= |docs|
  {
    if docs == [] then []
    else
      var init := Filter(docs[..|docs| - 1], c, ts);
      var d := docs[|docs| - 1];
      if Matches(c, d, ts) then init + [d] else init
  }

  /** A search over the input text: nothing at all when the box is empty,
      the tokens' matches otherwise. */
  function SearchResult(docs: seq<DocInfo>, c: Criterion, text: string): seq<DocInfo> {
    if text == [] then [] else Filter(docs, c, Tokens(text))
  }

  /** The search of the tags field: strict or greedy as the check box says. */
  function TagCriterion(strict: bool): Criterion {
    if strict then AllTags else AnyTag
  }

  function EntrySeparator(singleFolder: bool): string {
    if singleFolder then "-" else "/"
  }

  /** The archive name: ".zip" is added when the chosen name lacks it. */
  function ZipName(chosen: string): (r: string)
    ensures EndsWith(r, ".zip")
    ensures EndsWith(chosen, ".zip") ==> r == chosen
    ensures !EndsWith(chosen, ".zip") ==> r == chosen + ".zip"
  {
    if EndsWith(chosen, ".zip") then chosen
    else
      assert (chosen + ".zip")[|chosen|..] == ".zip";
      chosen + ".zip"
  }

  /** The records whose files open, in order. */
  function Opened(docs: seq<DocInfo>, opens: seq<bool>): (r: seq<DocInfo>)
    requires |opens| == |docs|
    ensures |r| <= |docs|
  {
    if docs == [] then []
    else (if opens[0] then [docs[0]] else []) + Opened(docs[1..], opens[1..])
  }

  /** The archive entry (name, source file) of a record numbered k. */
  function Entry(k: nat, sep: string, d: DocInfo): (string, string) {
    (NumberText(k) + sep + d.fileName, d.filePath)
  }

  /** The entries the export writes: the counter goes up for every file that
      opens, and only those files get an entry. count is the counter so far. */
  function Entries(docs: seq<DocInfo>, opens: seq<bool>, sep: string, count: nat): seq<(string, string)>
    requires |opens| == |docs|
  {
    if docs == [] then []
    else if opens[0] then [Entry(count + 1, sep, docs[0])] + Entries(docs[1..], opens[1..], sep, count + 1)
    else Entries(docs[1..], opens[1..], sep, count)
  }

  class SearchScreen {
    const save: SaveData
    /** The records listed as the result of the last search. */
    var found: seq<DocInfo>

    constructor (save: SaveData)
      ensures this.save == save && found == []
    {
      this.save := save;
      found := [];
    }

    /** The common loop of the greedy, comment and name searches: appends
        every catalogue record one of the tokens hits, stopping at the first
        token that does. */
    method AppendAnyMatches(c: Criterion, searchTags: seq<string>)
      requires c != AllTags
      modifies this
      ensures found == old(found) + Filter(save.folderDocs, c, searchTags)
    {
      var docs := save.folderDocs;
      var i := 0;
      while i < |docs|
        invariant 0 <= i <= |docs|
        invariant found == old(found) + Filter(docs[..i], c, searchTags)
      {
        var info := docs[i];
        ghost var before := found;
        var hit := false;
        var j := 0;
        while j < |searchTags|
          invariant 0 <= j <= |searchTags|
          invariant !hit && found == before
          invariant forall k :: 0 <= k < j ==> !Hit(c, info, searchTags[k])
        {
          if Hit(c, info, searchTags[j]) {
            found := found + [info];
            hit := true;
            break;
          }
          j := j + 1;
        }
        assert docs[..i + 1][..i] == docs[..i];
        if !hit {
          assert forall t :: t in searchTags ==> !Hit(c, info, t);
        }
        i := i + 1;
      }
      assert docs[..i] == docs;
    }

    /** doGreedySearch: appends the records with at least one query token
        among their tags. */
    method DoGreedySearch(text: string)
      modifies this
      ensures found == old(found) + SearchResult(save.folderDocs, AnyTag, text)
    {
      if text != [] {
        var searchTags := Tokens(text);
        AppendAnyMatches(AnyTag, searchTags);
      }
    }

    /** doStrictSearch: appends the records that carry every query token. */
    method DoStrictSearch(text: string)
      modifies this
      ensures found == old(found) + SearchResult(save.folderDocs, AllTags, text)
    {
      if text != [] {
        var searchTags := Tokens(text);
        var docs := save.folderDocs;
        var i := 0;
        while i < |docs|
          invariant 0 <= i <= |docs|
          invariant found == old(found) + Filter(docs[..i], AllTags, searchTags)
        {
          var info := docs[i];
          var isValid := true;
          ghost var missing := "";
          var j := 0;
          while j < |searchTags|
            invariant 0 <= j <= |searchTags|
            invariant isValid
            invariant forall k :: 0 <= k < j ==> searchTags[k] in info.tags
          {
            if searchTags[j] !in info.tags {
              isValid := false;
              missing := searchTags[j];
              break;
            }
            j := j + 1;
          }
          if isValid {
            assert forall t :: t in searchTags ==> t in info.tags;
            found := found + [info];
          } else {
            assert missing in searchTags && missing !in info.tags;
          }
          assert docs[..i + 1][..i] == docs[..i];
          i := i + 1;
        }
        assert docs[..i] == docs;
      }
    }

    /** findTags: the previous result is dropped and the tags are searched
        in the mode the check box selects. */
    method FindTags(text: string, strict: bool)
      modifies this
      ensures found == SearchResult(save.folderDocs, TagCriterion(strict), text)
    {
      found := [];
      if strict {
        DoStrictSearch(text);
      } else {
        DoGreedySearch(text);
      }
    }

    /** findComments: the records whose comment contains a query token. */
    method FindComments(text: string)
      modifies this
      ensures found == SearchResult(save.folderDocs, CommentHas, text)
    {
      found := [];
      if text != [] {
        var searchTags := Tokens(text);
        AppendAnyMatches(CommentHas, searchTags);
      }
    }

    /** findName: the records whose name contains a query token. */
    method FindName(text: string)
      modifies this
      ensures found == SearchResult(save.folderDocs, NameHas, text)
    {
      found := [];
      if text != [] {
        var searchTags := Tokens(text);
        AppendAnyMatches(NameHas, searchTags);
      }
    }

    /** deleteFromDocs: the selected rows leave the result list, the others
        stay in order. */
    method DeleteFromDocs(rows: seq<nat>)
      requires ValidRows(rows, |found|)
      modifies this
      ensures found == KeepRows(old(found), Elements(rows))
    {
      found := RemoveRows(found, rows);
    }

    /** save: the archive chosen (empty when nothing is written) and the
        entries written into it. opens[i] tells whether the i-th result's
        file opens for reading; archiveOpens whether the archive can be
        created. */
    method Save(chosen: string, singleFolder: bool, archiveOpens: bool, opens: seq<bool>)
      returns (archive: string, entries: seq<(string, string)>)
      requires |opens| == |found|
      ensures found == [] || chosen == [] ==> archive == [] && entries == []
      ensures found != [] && chosen != [] ==> archive == ZipName(chosen)
      ensures found != [] && chosen != [] && archiveOpens
          ==> entries == Entries(found, opens, EntrySeparator(singleFolder), 0)
      ensures !archiveOpens ==> entries == []
    {
      archive, entries := [], [];
      if found == [] {
        return;
      }
      if chosen != [] {
        var delimiter := if singleFolder then "-" else "/";
        archive := chosen;
        if !EndsWith(archive, ".zip") {
          archive := archive + ".zip";
        }
        if archiveOpens {
          var i: nat := 0;
          var n := 0;
          while n < |found|
            invariant 0 <= n <= |found|
            invariant entries + Entries(found[n..], opens[n..], delimiter, i)
                   == Entries(found, opens, delimiter, 0)
          {
            assert found[n..][1..] == found[n + 1..] && opens[n..][1..] == opens[n + 1..];
            if opens[n] {
              i := i + 1;
              entries := entries + [(NumberText(i) + delimiter + found[n].fileName, found[n].filePath)];
            }
            n := n + 1;
          }
        }
      }
    }
  }
}

/*
 * What the searches promise about their results.
 */
module SearchProperties {
  import opened Text
  import opened Docs
  import opened Rows
  import opened Search

  /** A record is in the result exactly when it is in the catalogue and
      matches. */
  lemma {:induction false} FilterMembers(docs: seq<DocInfo>, c: Criterion, ts: seq<string>, d: DocInfo)
    ensures d in Filter(docs, c, ts) <==> d in docs && Matches(c, d, ts)
  {
    if docs != [] {
      var init := docs[..|docs| - 1];
      FilterMembers(init, c, ts, d);
      assert docs == init + [docs[|docs| - 1]];
    }
  }

  /** The result is the catalogue with some records left out, in catalogue
      order and each catalogue entry at most once. */
  lemma {:induction false} FilterIsSubseq(docs: seq<DocInfo>, c: Criterion, ts: seq<string>)
    ensures SubseqOf(Filter(docs, c, ts), docs)
  {
    if docs != [] {
      var n := |docs| - 1;
      FilterIsSubseq(docs[..n], c, ts);
      assert docs[..n] + [docs[n]] == docs;
      SubseqSnoc(Filter(docs[..n], c, ts), docs[..n], docs[n], Matches(c, docs[n], ts));
    }
  }

  /** Greedy tag search: a record is found iff one of the query tokens is
      one of its tags. */
  lemma GreedyFinds(docs: seq<DocInfo>, text: string, d: DocInfo)
    ensures d in SearchResult(docs, AnyTag, text)
        <==> text != [] && d in docs && exists t :: t in Tokens(text) && t in d.tags
  {
    FilterMembers(docs, AnyTag, Tokens(text), d);
  }

  /** Strict tag search: a record is found iff every query token is one of
      its tags. */
  lemma StrictFinds(docs: seq<DocInfo>, text: string, d: DocInfo)
    ensures d in SearchResult(docs, AllTags, text)
        <==> text != [] && d in docs && forall t :: t in Tokens(text) ==> t in d.tags
  {
    FilterMembers(docs, AllTags, Tokens(text), d);
  }

  /** Comment search: a record is found iff its comment contains a token. */
  lemma CommentFinds(docs: seq<DocInfo>, text: string, d: DocInfo)
    ensures d in SearchResult(docs, CommentHas, text)
        <==> text != [] && d in docs && exists t :: t in Tokens(text) && Contains(d.comment, t)
  {
    FilterMembers(docs, CommentHas, Tokens(text), d);
  }

  /** Name search: a record is found iff its name contains a token. */
  lemma NameFinds(docs: seq<DocInfo>, text: string, d: DocInfo)
    ensures d in SearchResult(docs, NameHas, text)
        <==> text != [] && d in docs && exists t :: t in Tokens(text) && Contains(d.fileName, t)
  {
    FilterMembers(docs, NameHas, Tokens(text), d);
  }

  /** The strict result is part of the greedy one, in the same order: a
      query always has a token, so carrying all of them means carrying one. */
  lemma {:induction false} StrictWithinGreedy(docs: seq<DocInfo>, text: string)
    ensures SubseqOf(SearchResult(docs, AllTags, text), SearchResult(docs, AnyTag, text))
  {
    if text != [] {
      StrictWithinGreedyTokens(docs, Tokens(text));
    }
  }

  lemma {:induction false} StrictWithinGreedyTokens(docs: seq<DocInfo>, ts: seq<string>)
    requires ts != []
    ensures SubseqOf(Filter(docs, AllTags, ts), Filter(docs, AnyTag, ts))
  {
    if docs != [] {
      var n := |docs| - 1;
      var d := docs[n];
      StrictWithinGreedyTokens(docs[..n], ts);
      var strict := Filter(docs[..n], AllTags, ts);
      var greedy := Filter(docs[..n], AnyTag, ts);
      if Matches(AllTags, d, ts) {
        assert ts[0] in ts && Hit(AnyTag, d, ts[0]);
        SubseqSnoc(strict, greedy, d, true);
      } else if Matches(AnyTag, d, ts) {
        SubseqSnoc(strict, greedy, d, false);
      }
    }
  }

  /** The entries the export writes are numbered 1, 2, ... over the files
      that open, in result order. */
  lemma EntriesNumbered(docs: seq<DocInfo>, opens: seq<bool>, sep: string, count: nat)
    requires |opens| == |docs|
    ensures |Entries(docs, opens, sep, count)| == |Opened(docs, opens)|
    ensures forall j :: 0 <= j < |Opened(docs, opens)| ==>
              Entries(docs, opens, sep, count)[j] == Entry(count + j + 1, sep, Opened(docs, opens)[j])
  {
    EntriesLength(docs, opens, sep, count);
    forall j | 0 <= j < |Opened(docs, opens)|
      ensures Entries(docs, opens, sep, count)[j] == Entry(count + j + 1, sep, Opened(docs, opens)[j])
    {
      EntryAt(docs, opens, sep, count, j);
    }
  }

  lemma {:induction false} EntriesLength(docs: seq<DocInfo>, opens: seq<bool>, sep: string, count: nat)
    requires |opens| == |docs|
    ensures |Entries(docs, opens, sep, count)| == |Opened(docs, opens)|
  {
    if docs != [] {
      EntriesLength(docs[1..], opens[1..], sep, if opens[0] then count + 1 else count);
    }
  }

  lemma {:induction false} EntryAt(docs: seq<DocInfo>, opens: seq<bool>, sep: string, count: nat, j: nat)
    requires |opens| == |docs| && j < |Opened(docs, opens)|
    requires |Entries(docs, opens, sep, count)| == |Opened(docs, opens)|
    ensures Entries(docs, opens, sep, count)[j] == Entry(count + j + 1, sep, Opened(docs, opens)[j])
  {
    var c := if opens[0] then count + 1 else count;
    var rest := Entries(docs[1..], opens[1..], sep, c);
    var ro := Opened(docs[1..], opens[1..]);
    EntriesLength(docs[1..], opens[1..], sep, c);
    if !opens[0] {
      assert Entries(docs, opens, sep, count) == rest && Opened(docs, opens) == ro;
      EntryAt(docs[1..], opens[1..], sep, c, j);
    } else if j > 0 {
      assert Entries(docs, opens, sep, count)[j] == rest[j - 1];
      assert Opened(docs, opens)[j] == ro[j - 1];
      EntryAt(docs[1..], opens[1..], sep, c, j - 1);
    }
  }

  /** Entries never share a name: each starts with its own number, and the
      separator is not a digit. */
  lemma EntryNamesDistinct(docs: seq<DocInfo>, opens: seq<bool>, singleFolder: bool)
    requires |opens| == |docs|
    ensures var es := Entries(docs, opens, EntrySeparator(singleFolder), 0);
            forall j, l :: 0 <= j < l < |es| ==> es[j].0 != es[l].0
  {
    var sep := EntrySeparator(singleFolder);
    var es := Entries(docs, opens, sep, 0);
    var ds := Opened(docs, opens);
    EntriesNumbered(docs, opens, sep, 0);
    forall j, l | 0 <= j < l < |es| ensures es[j].0 != es[l].0 {
      NumberedNamesDiffer(j + 1, l + 1, sep, ds[j].fileName, ds[l].fileName);
    }
  }

  lemma NumberedNamesDiffer(a: nat, b: nat, sep: string, x: string, y: string)
    requires a != b && sep != [] && !('0' <= sep[0] <= '9')
    ensures NumberText(a) + sep + x != NumberText(b) + sep + y
  {
    var p, q := NumberText(a), NumberText(b);
    var s, t := p + sep + x, q + sep + y;
    if p == q {
      NumberTextInjective(a, b);
    }
    if |p| == |q| {
      assert s[..|p|] == p && t[..|q|] == q;
    } else if |p| < |q| {
      assert s[|p|] == sep[0] && t[|p|] == q[|p|];
    } else {
      assert t[|q|] == sep[0] && s[|q|] == p[|q|];
    }
  }
}
