/** What a card in the component list shows: the main file and its code
    preview, the category badge with its fallbacks, at most three tags, the
    file count and whether the component was edited. */
module ComponentCard {

  import opened Js
  import opened Text
  import opened ComponentForm

  /** The populated category of a listed component (either field may be missing). */
  datatype CategoryRef = CategoryRef(name: Option<string>, color: Option<string>)

  /** Index of the first main file (`findIndex(file => file.isMain)`). */
  function FirstMain(files: seq<FormFile>): (r: Option<nat>)
    ensures r.None? <==> !HasMain(files)
    ensures r.Some? ==> r.value < |files| && files[r.value].isMain
                        && forall j :: 0 <= j < r.value ==> !files[j].isMain
  {
    if |files| == 0 then None
    else if files[0].isMain then Some(0)
    else
      match FirstMain(files[1..])
      case None => None
      case Some(i) => Some(i + 1)
  }

  /** `files?.find(f => f.isMain) || files?.[0]`: the first main file, else
      the first file, else nothing. */
  function MainFile(files: Option<seq<FormFile>>): (r: Option<FormFile>)
    ensures r.None? <==> files.None? || files.value == []
    ensures r.Some? && HasMain(files.value) ==> r.value.isMain
                                                && r.value == files.value[FirstMain(files.value).value]
    ensures r.Some? && !HasMain(files.value) ==> r.value == files.value[0]
  {
    if files.None? then None
    else match FirstMain(files.value)
      case Some(i) => Some(files.value[i])
      case None => if |files.value| > 0 then Some(files.value[0]) else None
  }

  /** The code preview: at most 200 characters of the start of the content,
      and an ellipsis exactly when something was cut off. */
  function Preview(content: string): (r: (string, bool))
    ensures |r.0| <= 200 && |r.0| <= |content| && r.0 == content[..|r.0|]
    ensures r.1 <==> r.0 != content
    ensures !r.1 ==> r.0 == content
    ensures r.1 ==> |r.0| == 200
  {
    if |content| > 200 then (content[..200], true) else (content, false)
  }

  /** The colour and label of the category badge: the category's own when
      set, otherwise violet and "Sin categoría". */
  function CategoryBadge(category: Option<CategoryRef>): (r: (string, string))
    ensures category.Some? && TruthyStr(category.value.color) ==> r.0 == category.value.color.value
    ensures !(category.Some? && TruthyStr(category.value.color)) ==> r.0 == "#8B5CF6"
    ensures category.Some? && TruthyStr(category.value.name) ==> r.1 == category.value.name.value
    ensures !(category.Some? && TruthyStr(category.value.name)) ==> r.1 == "Sin categoría"
  {
    var color := if category.Some? then category.value.color else None;
    var name := if category.Some? then category.value.name else None;
    (OrStr(color, Some("#8B5CF6")).value, OrStr(name, Some("Sin categoría")).value)
  }

  /** The tag badges: up to three tags, and "+k" for the k others. */
  function TagBadges(tags: Option<seq<string>>): (r: (seq<string>, Option<nat>))
    ensures tags.None? ==> r == ([], None)
    ensures tags.Some? ==> |r.0| == (if |tags.value| > 3 then 3 else |tags.value|)
                           && r.0 == tags.value[..|r.0|]
                           && (r.1.Some? <==> |tags.value| > 3)
                           && (r.1.Some? ==> r.1.value == |tags.value| - 3)
  {
    if tags.None? then ([], None) else Overflow(tags.value, 3)
  }

  /** "N archivo(s)": a missing file list counts as 0, and the suffix is
      dropped only for exactly one file. */
  function FileCountLabel(files: Option<seq<FormFile>>): (text: string)
    ensures files.Some? && |files.value| == 1 ==> text == "1 archivo"
    ensures files.None? ==> text == "0 archivos"
    ensures files.Some? && |files.value| != 1 ==> text == IntToString(|files.value|) + " archivos"
  {
    var count := if files.Some? then |files.value| else 0;
    var suffix := if files.Some? then PluralSuffix(|files.value|) else "s";
    IntToString(count) + " archivo" + suffix
  }

  /** The "edited" line appears exactly when the two timestamps differ. */
  function ShowsEdited(createdAt: string, updatedAt: string): (shown: bool)
    ensures shown <==> updatedAt != createdAt
  {
    updatedAt != createdAt
  }
}
