/** The Category document: its fields, defaults and the validation a save
    runs (required trimmed name, hexadecimal colour). */
module CategorySchema {

  import opened Js
  import opened Text

  /** Colour given to a category that supplies none. */
  const DefaultColor: string := "#8B5CF6"

  /** Icon given to a category that supplies none. */
  const DefaultIcon: string := "folder"

  datatype Category = Category(
    id: Id,
    name: string,
    description: Option<string>,
    color: string,
    icon: string,
    createdBy: Id,
    isDefault: bool)

  predicate IsHexDigit(c: char) {
    ('0' <= c <= '9') || ('a' <= c <= 'f') || ('A' <= c <= 'F')
  }

  /** The colour validator: `#` then exactly six or exactly three hex digits,
      anchored at both ends. */
  predicate ValidColor(s: string) {
    (|s| == 7 || |s| == 4) && s[0] == '#'
    && forall i :: 1 <= i < |s| ==> IsHexDigit(s[i])
  }

  /** The colour regex read as a left-to-right scan, the way a regex engine
      matches it: a '#', then a run of hex digits that must end the input
      after exactly 3 or 6 of them. */
  method MatchColor(s: string) returns (ok: bool)
    ensures ok <==> ValidColor(s)
  {
    if |s| == 0 || s[0] != '#' {
      return false;
    }
    var i := 1;
    while i < |s| && IsHexDigit(s[i])
      invariant 1 <= i <= |s|
      invariant forall j :: 1 <= j < i ==> IsHexDigit(s[j])
    {
      i := i + 1;
    }
    ok := i == |s| && (i - 1 == 6 || i - 1 == 3);
  }

  /** The default colour passes the validator. */
  lemma DefaultColorIsValid()
    ensures ValidColor(DefaultColor)
  {
  }

  /** What a save accepts: a non-empty name (the schema trims it first) and a
      valid colour. */
  predicate ValidCategory(c: Category) {
    c.name != "" && IsTrimmed(c.name) && ValidColor(c.color)
  }

  /** `new Category({...})`: the trim setters on name and description, the
      `'#8B5CF6'`, `'folder'` and `false` defaults for omitted colour, icon
      and `isDefault`. */
  function NewCategory(id: Id, name: string, description: Option<string>, color: Option<string>,
                       icon: Option<string>, createdBy: Id, isDefault: Option<bool>): (c: Category)
    ensures c.id == id && c.createdBy == createdBy
    ensures c.name == Trim(name)
    ensures IsTrimmed(c.name)
    ensures description.None? ==> c.description.None?
    ensures description.Some? ==> c.description == Some(Trim(description.value))
    ensures color.None? ==> c.color == DefaultColor
    ensures icon.None? ==> c.icon == DefaultIcon
    ensures isDefault.None? ==> !c.isDefault
    ensures color.Some? ==> c.color == color.value
  {
    Category(
      id,
      Trim(name),
      match description case Some(d) => Some(Trim(d)) case None => None,
      color.GetOr(DefaultColor),
      icon.GetOr(DefaultIcon),
      createdBy,
      isDefault.GetOr(false))
  }

  /** A category built with every default (and a usable name) saves. */
  lemma DefaultsSave(id: Id, name: string, createdBy: Id)
    requires !IsBlank(name)
    ensures ValidCategory(NewCategory(id, name, None, None, None, createdBy, None))
  {
    TrimEmptyIffBlank(name);
  }
}
