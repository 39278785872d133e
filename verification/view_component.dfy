/** The component detail page: which file tab is open first, the language
    each file type is highlighted as, and the file shown for a tab. */
module ViewComponent {

  import opened Js
  import opened ComponentSchema
  import opened ComponentForm
  import opened ComponentCard

  /** The tab open after loading: the first main file, or the first tab. */
  function DefaultTab(files: seq<FormFile>): (i: nat)
    ensures HasMain(files) ==> i < |files| && files[i].isMain && forall j :: 0 <= j < i ==> !files[j].isMain
    ensures !HasMain(files) ==> i == 0
  {
    match FirstMain(files)
    case Some(i) => i
    case None => 0
  }

  /** The file shown under a tab (`files[index]?`). */
  function ActiveFile(files: seq<FormFile>, index: int): (r: Option<FormFile>)
    ensures r.Some? <==> 0 <= index < |files|
    ensures r.Some? ==> r.value == files[index]
  {
    if 0 <= index < |files| then Some(files[index]) else None
  }

  /** The detail page opens on the same file the list card previews. */
  lemma DefaultTabShowsCardFile(files: seq<FormFile>)
    ensures ActiveFile(files, DefaultTab(files)) == MainFile(Some(files))
  {
  }

  /** After making file `i` the main one on the edit page, the detail page
      opens on file `i`. */
  lemma DefaultTabFollowsMainFile(files: seq<FormFile>, i: int)
    requires 0 <= i < |files|
    ensures DefaultTab(SetMainFile(files, i)) == i
  {
    var r := SetMainFile(files, i);
    assert r[i].isMain;
  }

  /** `getFileLanguage`: the highlighter language of a file type, 'text' for
      anything not in the table. */
  function FileLanguage(fileType: string): string {
    if fileType == "jsx" || fileType == "js" then "javascript"
    else if fileType == "tsx" || fileType == "ts" then "typescript"
    else if fileType in {"css", "scss", "less", "json"} then fileType
    else "text"
  }

  /** The language table covers exactly the file types a component may
      store: a type is highlighted as something other than 'text' iff the
      schema accepts it, and the script types share a language with their
      typed variants. */
  lemma FileLanguageCoversSchema(fileType: string)
    ensures FileLanguage(fileType) != "text" <==> ParseFileType(fileType).Some?
    ensures FileLanguage(fileType) == "javascript" <==> ParseFileType(fileType) in {Some(Jsx), Some(Js)}
    ensures FileLanguage(fileType) == "typescript" <==> ParseFileType(fileType) in {Some(Tsx), Some(Ts)}
  {
  }
}
