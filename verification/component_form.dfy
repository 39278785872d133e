/** The add and edit pages' form: the file-list editor, the submit checks
    and the tag text codec (join with ", " on load, split on ',' with trim
    and empty pieces dropped on submit). */
module ComponentForm {

  import opened Js
  import opened Text
  import opened ComponentSchema
  import opened ComponentController

  /** A file row of the form; `fileType` is the select's string value. */
  datatype FormFile = FormFile(filename: string, content: string, fileType: string, isMain: bool)

  /** The file fields a text input or select edits. */
  datatype FileField = Filename | Content | Kind

  /** The form state. `category` is the select's value, `None` for the
      empty option. */
  datatype Form = Form(name: string, description: string, category: Option<Id>, tags: string,
                       files: seq<FormFile>)

  /** Some file of the list is main. */
  predicate HasMain(files: seq<FormFile>) {
    exists i :: 0 <= i < |files| && files[i].isMain
  }

  // ---------------------------------------------------------------------
  // Initial state

  /** The starter file's content. */
  const Template: string :=
    "import React from 'react';\n\nconst Component = () => {\n  return (\n    <div>\n"
    + "      {/* Tu componente aquí */}\n    </div>\n  );\n};\n\nexport default Component;"

  /** The add page's initial form: empty fields and one main `Component.jsx`. */
  function InitialForm(): (f: Form)
    ensures f.name == "" && f.description == "" && f.category.None? && f.tags == ""
    ensures |f.files| == 1 && f.files[0].filename == "Component.jsx" && f.files[0].fileType == "jsx"
    ensures HasMain(f.files)
  {
    Form("", "", None, "", [FormFile("Component.jsx", Template, "jsx", true)])
  }

  // ---------------------------------------------------------------------
  // File-list operations

  /** `{ ...file, [field]: value }`. */
  function SetField(f: FormFile, field: FileField, value: string): FormFile {
    match field
    case Filename => f.(filename := value)
    case Content => f.(content := value)
    case Kind => f.(fileType := value)
  }

  /** `handleFileChange(index, field, value)`: the file at `index` gets the
      new value in that one field; every other file, and every other field,
      is unchanged. An index outside the list changes nothing. */
  function HandleFileChange(files: seq<FormFile>, index: int, field: FileField, value: string): (r: seq<FormFile>)
    ensures |r| == |files|
    ensures forall i :: 0 <= i < |files| && i != index ==> r[i] == files[i]
    ensures 0 <= index < |files| ==>
              && r[index].isMain == files[index].isMain
              && (r[index].filename == if field == Filename then value else files[index].filename)
              && (r[index].content == if field == Content then value else files[index].content)
              && (r[index].fileType == if field == Kind then value else files[index].fileType)
  {
    seq(|files|, i requires 0 <= i < |files| => if i == index then SetField(files[i], field, value) else files[i])
  }

  /** The row `addFile` appends. */
  const NewCssFile: FormFile := FormFile("NewFile.css", "", "css", false)

  /** `addFile`: one empty, non-main CSS file at the end. */
  function AddFile(files: seq<FormFile>): (r: seq<FormFile>)
    ensures |r| == |files| + 1 && r[..|files|] == files
    ensures r[|files|] == FormFile("NewFile.css", "", "css", false)
  {
    files + [NewCssFile]
  }

  /** Adding a file never changes whether the list has a main file. */
  lemma AddFileKeepsMain(files: seq<FormFile>)
    ensures HasMain(AddFile(files)) <==> HasMain(files)
  {
    var r := AddFile(files);
    if HasMain(r) {
      var i :| 0 <= i < |r| && r[i].isMain;
      assert i < |files| && files[i] == r[i];
    }
    if HasMain(files) {
      var i :| 0 <= i < |files| && files[i].isMain;
      assert r[i] == files[i];
    }
  }

  /** `removeFile(index)`: with more than one file, `filter` drops the one at
      `index`; with one file (or none) nothing changes, so a non-empty list
      never becomes empty. */
  method RemoveFile(files: seq<FormFile>, index: int) returns (r: seq<FormFile>)
    ensures |files| <= 1 ==> r == files
    ensures |files| > 1 && 0 <= index < |files| ==> r == files[..index] + files[index + 1..]
    ensures |files| > 1 && !(0 <= index < |files|) ==> r == files
    ensures |files| >= 1 ==> |r| >= 1
  {
    if |files| <= 1 {
      return files;
    }
    r := [];
    var i := 0;
    while i < |files|
      invariant 0 <= i <= |files|
      invariant 0 <= index < i ==> r == files[..index] + files[index + 1..i]
      invariant !(0 <= index < i) ==> r == files[..i]
    {
      if i != index {
        r := r + [files[i]];
      }
      i := i + 1;
    }
    assert files[..|files|] == files;
  }

  /** `setMainFile(index)`: every file keeps its fields except `isMain`,
      which becomes whether it sits at `index`. */
  function SetMainFile(files: seq<FormFile>, index: int): (r: seq<FormFile>)
    ensures |r| == |files|
    ensures forall i :: 0 <= i < |files| ==> r[i] == files[i].(isMain := i == index)
  {
    seq(|files|, i requires 0 <= i < |files| => files[i].(isMain := i == index))
  }

  /** After `setMainFile(index)` the file at `index` is the one and only
      main file; with an index outside the list no file is main. */
  lemma SetMainFileSingleMain(files: seq<FormFile>, index: int)
    ensures forall i :: 0 <= i < |files| ==> (SetMainFile(files, index)[i].isMain <==> i == index)
    ensures HasMain(SetMainFile(files, index)) <==> 0 <= index < |files|
  {
    var r := SetMainFile(files, index);
    if 0 <= index < |files| {
      assert r[index].isMain;
    }
  }

  // ---------------------------------------------------------------------
  // Tag codec

  /** `pieces.filter(tag => tag)`: the non-empty pieces, in order. */
  function NonEmpty(xs: seq<string>): (r: seq<string>)
    ensures |r| <= |xs|
    ensures forall i :: 0 <= i < |r| ==> r[i] != ""
    ensures forall x :: x in r <==> x in xs && x != ""
  {
    if |xs| == 0 then []
    else
      assert forall x :: x in xs <==> x == xs[0] || x in xs[1..];
      (if xs[0] != "" then [xs[0]] else []) + NonEmpty(xs[1..])
  }

  /** The submitted tags: an empty text gives no tags, otherwise the text
      is split on ',', each piece trimmed, and the empty pieces dropped. */
  function ParseTags(s: string): (r: seq<string>)
    ensures s == "" ==> r == []
    ensures forall i :: 0 <= i < |r| ==> r[i] != "" && IsTrimmed(r[i]) && ',' !in r[i]
  {
    if s == "" then []
    else
      var pieces := Split(s, ',');
      var trimmed := TrimAll(pieces);
      assert forall x :: x in trimmed ==> IsTrimmed(x) && ',' !in x by {
        forall x | x in trimmed
          ensures IsTrimmed(x) && ',' !in x
        {
          var i :| 0 <= i < |trimmed| && trimmed[i] == x;
          TrimKeepsAbsent(pieces[i], ',');
        }
      }
      var r := NonEmpty(trimmed);
      assert forall i :: 0 <= i < |r| ==> r[i] in r;
      r
  }

  /** The tag text shown on the edit page: `tags.join(', ')`. */
  function JoinTags(tags: seq<string>): string {
    Join(tags, ", ")
  }

  /** The tags with a space in front of each one. */
  function Spaced(xs: seq<string>): (r: seq<string>)
    ensures |r| == |xs|
    ensures forall i :: 0 <= i < |xs| ==> r[i] == " " + xs[i]
  {
    if |xs| == 0 then [] else [" " + xs[0]] + Spaced(xs[1..])
  }

  lemma {:induction false} JoinSpaced(xs: seq<string>)
    requires |xs| >= 1
    ensures Join(Spaced(xs), [',']) == " " + Join(xs, ", ")
    decreases |xs|
  {
    if |xs| > 1 {
      JoinSpaced(xs[1..]);
      assert Spaced(xs)[1..] == Spaced(xs[1..]);
    }
  }

  /** Joining with ", " is joining, with ',', the first tag and the others
      each preceded by a space. */
  lemma JoinAsPieces(tags: seq<string>)
    requires |tags| >= 1
    ensures JoinTags(tags) == Join([tags[0]] + Spaced(tags[1..]), [','])
  {
    if |tags| > 1 {
      JoinSpaced(tags[1..]);
      assert ([tags[0]] + Spaced(tags[1..]))[1..] == Spaced(tags[1..]);
    }
  }

  /** The tag text as ','-separated pieces: the first tag, then the others
      each behind a space. */
  function Pieces(tags: seq<string>): seq<string>
    requires |tags| >= 1
  {
    [tags[0]] + Spaced(tags[1..])
  }

  /** Splitting the joined text on ',' gives back the pieces. */
  lemma SplitJoinedTags(tags: seq<string>)
    requires |tags| >= 1
    requires forall i :: 0 <= i < |tags| ==> ',' !in tags[i]
    ensures Split(JoinTags(tags), ',') == Pieces(tags)
  {
    var pieces := Pieces(tags);
    JoinAsPieces(tags);
    forall i | 0 <= i < |pieces|
      ensures ',' !in pieces[i]
    {
      if i > 0 {
        assert pieces[i] == " " + tags[i];
      }
    }
    SplitJoin(pieces, ',');
  }

  /** Trimming the pieces gives back trimmed tags. */
  lemma TrimPieces(tags: seq<string>)
    requires |tags| >= 1
    requires forall i :: 0 <= i < |tags| ==> IsTrimmed(tags[i])
    ensures TrimAll(Pieces(tags)) == tags
  {
    var pieces := Pieces(tags);
    var trimmed := TrimAll(pieces);
    forall i | 0 <= i < |pieces|
      ensures trimmed[i] == tags[i]
    {
      if i == 0 {
        TrimOfTrimmed(tags[0]);
      } else {
        assert pieces[i] == [' '] + tags[i];
        TrimAfterSpace(tags[i]);
      }
    }
  }

  /** Tags that are non-empty, trimmed and free of commas survive a join on
      load followed by a parse on submit. */
  lemma ParseJoinTags(tags: seq<string>)
    requires forall i :: 0 <= i < |tags| ==> tags[i] != "" && IsTrimmed(tags[i]) && ',' !in tags[i]
    ensures ParseTags(JoinTags(tags)) == tags
  {
    if |tags| > 0 {
      assert JoinTags(tags) != "" by {
        if |tags| > 1 {
          assert JoinTags(tags) == tags[0] + ", " + JoinTags(tags[1..]);
        }
      }
      SplitJoinedTags(tags);
      TrimPieces(tags);
      NonEmptyOfNonEmpty(tags);
    }
  }

  lemma {:induction false} NonEmptyOfNonEmpty(xs: seq<string>)
    requires forall i :: 0 <= i < |xs| ==> xs[i] != ""
    ensures NonEmpty(xs) == xs
    decreases |xs|
  {
    if |xs| > 0 {
      NonEmptyOfNonEmpty(xs[1..]);
    }
  }

  // ---------------------------------------------------------------------
  // Load and submit

  /** A stored file as the edit form shows it. */
  function ToFormFile(f: ComponentFile): FormFile {
    FormFile(f.filename, f.content, FileTypeName(f.fileType), f.isMain)
  }

  /** The edit page's load: name, description and files as stored, the
      category's id, and the tags joined with ", ". */
  function LoadForm(c: Component): (f: Form)
    ensures f.name == c.name && f.description == c.description && f.category == Some(c.category)
    ensures f.tags == JoinTags(c.tags)
    ensures |f.files| == |c.files| && forall i :: 0 <= i < |c.files| ==> f.files[i] == ToFormFile(c.files[i])
  {
    Form(c.name, c.description, Some(c.category), JoinTags(c.tags),
         seq(|c.files|, i requires 0 <= i < |c.files| => ToFormFile(c.files[i])))
  }

  /** The object sent to the API. */
  datatype ComponentData = ComponentData(name: string, description: string, category: Id, tags: seq<string>,
                                         files: seq<FormFile>)

  /** What submitting does: refuse for missing fields, refuse for a missing
      main file, or send the data. */
  datatype Submission = MissingFields | NoMainFile | Send(data: ComponentData)

  /** `handleSubmit` (the same on both pages): a blank name or description
      or no category is refused first; then a list without a main file;
      otherwise the form is sent with its tags parsed. */
  function Submit(f: Form): (r: Submission)
    ensures r == MissingFields <==> IsBlank(f.name) || IsBlank(f.description) || f.category.None?
    ensures r == NoMainFile <==>
              !IsBlank(f.name) && !IsBlank(f.description) && f.category.Some? && !HasMain(f.files)
    ensures r.Send? ==> r.data == ComponentData(f.name, f.description, f.category.value, ParseTags(f.tags), f.files)
  {
    TrimEmptyIffBlank(f.name);
    TrimEmptyIffBlank(f.description);
    if Trim(f.name) == "" || Trim(f.description) == "" || f.category.None? then MissingFields
    else if !HasMain(f.files) then NoMainFile
    else Send(ComponentData(f.name, f.description, f.category.value, ParseTags(f.tags), f.files))
  }

  /** A form row as the request body carries it. */
  function ToInput(f: FormFile): FileInput {
    FileInput(Some(f.filename), Some(f.content), Some(f.fileType), Some(f.isMain))
  }

  /** The request body built from sent data. */
  function Body(d: ComponentData): (b: ComponentBody)
    ensures b.files.Some? && |b.files.value| == |d.files|
    ensures forall i :: 0 <= i < |d.files| ==> b.files.value[i] == ToInput(d.files[i])
  {
    ComponentBody(Some(d.name), Some(d.description), Some(ObjectId(d.category)), Some(d.tags),
                  Some(seq(|d.files|, i requires 0 <= i < |d.files| => ToInput(d.files[i]))), None)
  }

  /** Whatever the form sends passes the server's main-file guard and has a
      non-blank name and description, which the server keeps after trimming. */
  lemma SentBodyPassesMainFileGuard(f: Form)
    requires Submit(f).Send?
    ensures var b := Body(Submit(f).data);
            HasMainInput(b.files.value) && !IsBlank(b.name.value) && !IsBlank(b.description.value)
            && b.tags.value == ParseTags(f.tags)
  {
    var d := Submit(f).data;
    var i :| 0 <= i < |f.files| && f.files[i].isMain;
    assert Body(d).files.value[i] == ToInput(f.files[i]);
  }

  /** Opening the edit page on a stored component and submitting it
      unchanged sends the stored tags back, when each tag is non-empty and
      free of commas (a saved component's tags are already trimmed). */
  lemma EditRoundTrip(c: Component)
    requires ValidComponent(c)
    requires forall i :: 0 <= i < |c.tags| ==> c.tags[i] != "" && ',' !in c.tags[i]
    requires exists i :: 0 <= i < |c.files| && c.files[i].isMain
    ensures Submit(LoadForm(c)).Send?
    ensures Submit(LoadForm(c)).data.tags == c.tags
  {
    var f := LoadForm(c);
    assert HasMain(f.files) by {
      var i :| 0 <= i < |c.files| && c.files[i].isMain;
      assert f.files[i].isMain;
    }
    assert !IsBlank(f.name) by {
      TrimEmptyIffBlank(c.name);
      TrimOfTrimmed(c.name);
    }
    assert !IsBlank(f.description) by {
      TrimEmptyIffBlank(c.description);
      TrimOfTrimmed(c.description);
    }
    ParseJoinTags(c.tags);
  }
}
