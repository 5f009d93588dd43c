// Who may read a transcript: owner edits, republishes that narrow while they
// replace content, and shares of a whole project.
module Governance {
  import opened Options

  datatype Visibility = Private | Shared | Public

  function Rank(v: Visibility): nat {
    match v
    case Private => 0
    case Shared => 1
    case Public => 2
  }

  datatype Row = Row(
    owner: int,
    project: string,
    title: Option<string>,
    description: Option<string>,
    visibility: Visibility,
    license: Option<string>)

  // An omitted field is left alone; a provided license may be the empty one.
  datatype Patch = Patch(
    title: Option<string>,
    description: Option<string>,
    visibility: Option<Visibility>,
    license: Option<Option<string>>)

  datatype PatchRefusal = SharedNeedsNarrowing | UnlicenseBlocked

  // toPgText: the empty text is NULL
  function PgText(s: string): Option<string> { if s == "" then None else Some(s) }

  // The row a patch leaves.
  function Patched(pre: Row, patch: Patch): Result<Row, PatchRefusal> {
    if pre.visibility == Shared && patch.visibility.None? then Err(SharedNeedsNarrowing)
    else if patch.license == Some(None) && pre.license.Some? then Err(UnlicenseBlocked)
    else
      Ok(pre.(title := if patch.title.Some? then PgText(patch.title.value) else pre.title,
              description := if patch.description.Some? then PgText(patch.description.value) else pre.description,
              visibility := if patch.visibility.Some? then patch.visibility.value else pre.visibility,
              license := if patch.license.Some? then patch.license.value else pre.license))
  }

  // applyMetadataPatch
  method ApplyMetadataPatch(pre: Row, patch: Patch) returns (r: Result<Row, PatchRefusal>)
    ensures r == Patched(pre, patch)
    ensures r.Ok? <==>
        !(pre.visibility == Shared && patch.visibility.None?) && !(patch.license == Some(None) && pre.license.Some?)
    ensures r.Ok? && pre.license.Some? ==> r.value.license.Some?
    ensures r.Ok? && r.value.visibility == Shared ==> patch.visibility == Some(Shared)
    ensures r.Ok? ==> r.value.owner == pre.owner && r.value.project == pre.project
    ensures r.Ok? && patch.title.None? ==> r.value.title == pre.title
    ensures r.Ok? && patch.description.None? ==> r.value.description == pre.description
    ensures r.Ok? && patch.visibility.None? ==> r.value.visibility == pre.visibility
    ensures r.Ok? && patch.license.None? ==> r.value.license == pre.license
    ensures r.Ok? ==> Patched(r.value, patch) == r
  {
    if pre.visibility == Shared && patch.visibility.None? {
      return Err(SharedNeedsNarrowing);
    }
    var params := pre;
    if patch.title.Some? {
      params := params.(title := PgText(patch.title.value));
    }
    if patch.description.Some? {
      params := params.(description := PgText(patch.description.value));
    }
    if patch.visibility.Some? {
      params := params.(visibility := patch.visibility.value);
    }
    if patch.license.Some? {
      if patch.license.value.None? && pre.license.Some? {
        return Err(UnlicenseBlocked);
      }
      params := params.(license := patch.license.value);
    }
    return Ok(params);
  }

  function SetVisibility(v: Visibility): Patch { Patch(None, None, Some(v), None) }

  // ---- republish ----

  // narrowForRepublish: what the row becomes, and what it held if it was not
  // already private.
  function Narrowed(pre: Row): (Row, Option<Visibility>) {
    if pre.visibility == Private then (pre, None)
    else
      var narrow := Patched(pre, SetVisibility(Private));
      if narrow.Ok? then (narrow.value, Some(pre.visibility)) else (pre, None)
  }

  // republishRestoreTarget
  function RestoreTarget(locked: Visibility, narrowedFrom: Option<Visibility>): Visibility {
    if narrowedFrom.Some? && locked == Private then narrowedFrom.value else locked
  }

  // pinRepublishGovernance, as the replacement writes it.
  function Pinned(pre: Row, license: Option<string>, narrowedFrom: Option<Visibility>): Row {
    pre.(visibility := RestoreTarget(pre.visibility, narrowedFrom),
      license := if license.None? then pre.license else license)
  }

  // restoreNarrowedVisibility
  function Restored(pre: Row, narrowedFrom: Option<Visibility>): Row {
    var target := RestoreTarget(pre.visibility, narrowedFrom);
    if target == pre.visibility then pre
    else
      var back := Patched(pre, SetVisibility(target));
      if back.Ok? then back.value else pre
  }

  // Narrowing and then either ending gives back the row's own visibility, and
  // the narrowing itself is never refused.
  lemma NarrowRestores(pre: Row, license: Option<string>)
    ensures Narrowed(pre).0 == pre.(visibility := Private)
    ensures Narrowed(pre).1 == if pre.visibility == Private then None else Some(pre.visibility)
    ensures Restored(Narrowed(pre).0, Narrowed(pre).1) == pre
    ensures Pinned(Narrowed(pre).0, license, Narrowed(pre).1) ==
        pre.(license := if license.None? then pre.license else license)
  {
  }
}
