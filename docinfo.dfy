/*
 * The record the tool keeps for every document: where the file is, the
 * name shown for it, its tags and its comment (docinfo.h).
 */
module Docs {
  import opened Text

  datatype DocInfo = DocInfo(filePath: string, fileName: string, tags: seq<string>, comment: string)

  /** The record staged for a file picked for upload: the path as given, the
      path's last component as its name, no tags and no comment. */
  function NewDoc(path: string): (d: DocInfo)
    ensures d.filePath == path && d.tags == [] && d.comment == ""
  {
    DocInfo(path, BaseName(path), [], "")
  }

  /** The name of a staged record is the part of its path after the last
      '/': it holds no '/' and either is the whole path or follows a '/'. */
  lemma NewDocName(path: string)
    ensures forall k :: 0 <= k < |NewDoc(path).fileName| ==> NewDoc(path).fileName[k] != '/'
    ensures EndsWith(path, NewDoc(path).fileName)
    ensures NewDoc(path).fileName == path || EndsWith(path, "/" + NewDoc(path).fileName)
  {
    var name := BaseName(path);
    assert name != path ==> path[|path| - |name| - 1..] == "/" + name;
  }
}
