/** The Component document and its embedded file sub-document: field
    defaults, the `fileType` enum and the validation a save runs. */
module ComponentSchema {

  import opened Js
  import opened Text

  /** The `fileType` enum of the file sub-schema. */
  datatype FileType = Jsx | Css | Js | Ts | Tsx | Scss | Less | Json

  function FileTypeName(t: FileType): string {
    match t
    case Jsx => "jsx"
    case Css => "css"
    case Js => "js"
    case Ts => "ts"
    case Tsx => "tsx"
    case Scss => "scss"
    case Less => "less"
    case Json => "json"
  }

  /** Casting a string into the enum: only the eight names are accepted. */
  function ParseFileType(s: string): (r: Option<FileType>)
    ensures r.Some? ==> FileTypeName(r.value) == s
  {
    if s == "jsx" then Some(Jsx)
    else if s == "css" then Some(Css)
    else if s == "js" then Some(Js)
    else if s == "ts" then Some(Ts)
    else if s == "tsx" then Some(Tsx)
    else if s == "scss" then Some(Scss)
    else if s == "less" then Some(Less)
    else if s == "json" then Some(Json)
    else None
  }

  /** Every enum member's name parses back to it, so a string is accepted
      exactly when it is one of the eight names. */
  lemma FileTypeRoundTrip(t: FileType)
    ensures ParseFileType(FileTypeName(t)) == Some(t)
  {
  }

  lemma FileTypeAcceptedIffNamed(s: string)
    ensures ParseFileType(s).Some? <==> exists t: FileType :: FileTypeName(t) == s
  {
    if ParseFileType(s).Some? {
      assert FileTypeName(ParseFileType(s).value) == s;
    } else {
      forall t: FileType
        ensures FileTypeName(t) != s
      {
        FileTypeRoundTrip(t);
      }
    }
  }

  /** A stored file. */
  datatype ComponentFile = ComponentFile(filename: string, content: string, fileType: FileType, isMain: bool)

  /** A file as it arrives in a request body: every field may be missing. */
  datatype FileInput = FileInput(filename: Option<string>, content: Option<string>,
                                 fileType: Option<string>, isMain: Option<bool>)

  datatype Dependency = Dependency(name: Option<string>, version: Option<string>)

  datatype Component = Component(
    id: Id,
    name: string,
    description: string,
    category: Id,
    tags: seq<string>,
    files: seq<ComponentFile>,
    createdBy: Id,
    version: string,
    dependencies: seq<Dependency>,
    isPublic: bool)

  const DefaultVersion: string := "1.0.0"

  /** `files.some(file => file.isMain)` on a request body. */
  predicate HasMainInput(files: seq<FileInput>) {
    exists i :: 0 <= i < |files| && files[i].isMain == Some(true)
  }

  /** A required string: present and non-empty. */
  predicate Required(s: Option<string>) {
    s.Some? && s.value != ""
  }

  /** Casting and validating one file: filename and content are required,
      `fileType` must be in the enum, `isMain` defaults to false. */
  function CastFile(f: FileInput): (r: Option<ComponentFile>)
    ensures r.Some? <==> Required(f.filename) && Required(f.content)
                         && f.fileType.Some? && ParseFileType(f.fileType.value).Some?
    ensures r.Some? ==> r.value.filename == f.filename.value && r.value.content == f.content.value
                        && FileTypeName(r.value.fileType) == f.fileType.value
    ensures r.Some? ==> (r.value.isMain <==> f.isMain == Some(true))
  {
    if Required(f.filename) && Required(f.content) && f.fileType.Some? then
      match ParseFileType(f.fileType.value)
      case Some(t) => Some(ComponentFile(f.filename.value, f.content.value, t, f.isMain.GetOr(false)))
      case None => None
    else None
  }

  /** Casting the whole `files` array; one invalid file fails the save. */
  function CastFiles(fs: seq<FileInput>): (r: Option<seq<ComponentFile>>)
    ensures r.Some? <==> forall i :: 0 <= i < |fs| ==> CastFile(fs[i]).Some?
    ensures r.Some? ==> |r.value| == |fs|
                        && forall i :: 0 <= i < |fs| ==> CastFile(fs[i]) == Some(r.value[i])
  {
    if |fs| == 0 then Some([])
    else
      var head := CastFile(fs[0]);
      var rest := CastFiles(fs[1..]);
      if head.Some? && rest.Some? then Some([head.value] + rest.value)
      else
        assert rest.None? ==> exists i :: 0 <= i < |fs| - 1 && CastFile(fs[1..][i]).None?;
        None
  }

  /** The schema places no bound on how many files are main: casting keeps
      exactly the main flags the request carried. */
  lemma CastKeepsMainFlags(fs: seq<FileInput>)
    requires CastFiles(fs).Some?
    ensures (exists i :: 0 <= i < |CastFiles(fs).value| && CastFiles(fs).value[i].isMain) <==> HasMainInput(fs)
  {
    var cs := CastFiles(fs).value;
    if HasMainInput(fs) {
      var i :| 0 <= i < |fs| && fs[i].isMain == Some(true);
      assert CastFile(fs[i]) == Some(cs[i]);
      assert cs[i].isMain;
    }
    if exists i :: 0 <= i < |cs| && cs[i].isMain {
      var i :| 0 <= i < |cs| && cs[i].isMain;
      assert CastFile(fs[i]) == Some(cs[i]);
    }
  }

  /** What a save of a component accepts: trimmed name and description are
      non-empty (the setter trims first, then `required` rejects ""). */
  predicate ValidComponent(c: Component) {
    c.name != "" && c.description != ""
    && IsTrimmed(c.name) && IsTrimmed(c.description)
    && forall i :: 0 <= i < |c.tags| ==> IsTrimmed(c.tags[i])
  }

  /** Trim every tag (the `trim` option on the tag array's element type). */
  function TrimAll(xs: seq<string>): (r: seq<string>)
    ensures |r| == |xs|
    ensures forall i :: 0 <= i < |xs| ==> r[i] == Trim(xs[i])
  {
    if |xs| == 0 then [] else [Trim(xs[0])] + TrimAll(xs[1..])
  }

  /** `new Component({...})` followed by `save()`: `None` when validation
      fails; otherwise the document with trimmed name, description and tags,
      version "1.0.0", `isPublic` true, and the given files, category and
      owner. */
  function BuildComponent(id: Id, name: Option<string>, description: Option<string>, category: Id,
                          tags: seq<string>, files: seq<FileInput>, dependencies: seq<Dependency>,
                          createdBy: Id): (r: Option<Component>)
    ensures r.Some? <==> name.Some? && description.Some? && !IsBlank(name.value)
                         && !IsBlank(description.value) && CastFiles(files).Some?
    ensures r.Some? ==> ValidComponent(r.value)
    ensures r.Some? ==> r.value.id == id && r.value.category == category && r.value.createdBy == createdBy
                        && r.value.name == Trim(name.value) && r.value.description == Trim(description.value)
                        && r.value.tags == TrimAll(tags) && Some(r.value.files) == CastFiles(files)
                        && r.value.dependencies == dependencies
    ensures r.Some? ==> r.value.version == DefaultVersion && r.value.isPublic
  {
    if name.None? || description.None? then None
    else
      TrimEmptyIffBlank(name.value);
      TrimEmptyIffBlank(description.value);
      match CastFiles(files)
      case None => None
      case Some(fs) =>
        var c := Component(id, Trim(name.value), Trim(description.value), category, TrimAll(tags),
                           fs, createdBy, DefaultVersion, dependencies, true);
        if ValidComponent(c) then Some(c) else None
  }
}
