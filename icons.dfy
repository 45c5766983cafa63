/**
 * Icon addresses and grid placement for the search-result list (gui.py):
 * `get_mod_icon_url`, the icon resolution done by the `load_image` worker of
 * `create_mod_item`, and the two-column grid arithmetic.
 */
module Icons {
  import opened Wrappers
  import opened Text

  /** The fields of a search hit that the result list reads; absent keys are `None`. */
  datatype ModHit = ModHit(
    title: Option<string>,
    iconUrl: Option<string>,
    slug: Option<string>,
    projectId: Option<string>,
    id: Option<string>)

  const CdnBase: string := "https://cdn.modrinth.com"

  predicate IsAbsoluteUrl(s: string) {
    StartsWith(s, "http://") || StartsWith(s, "https://")
  }

  /**
   * A non-empty icon reference made into an address: an absolute URL is kept,
   * a path is put under the CDN host (gui.py:428-434, and again at 484-489).
   */
  function NormalizeIconUrl(icon: string): (r: string)
    requires icon != ""
    ensures IsAbsoluteUrl(r)
    ensures IsAbsoluteUrl(icon) ==> r == icon
    ensures !IsAbsoluteUrl(icon) ==> StartsWith(r, CdnBase + "/") && |icon| <= |r| && r[|r| - |icon|..] == icon
  {
    if IsAbsoluteUrl(icon) then
      icon
    else if StartsWith(icon, "/") then
      assert (CdnBase + icon)[..|CdnBase| + 1] == CdnBase + "/";
      CdnBase + icon
    else
      CdnBase + "/" + icon
  }

  /** Normalising an address again changes nothing. */
  lemma NormalizeIdempotent(icon: string)
    requires icon != ""
    ensures NormalizeIconUrl(NormalizeIconUrl(icon)) == NormalizeIconUrl(icon)
  {
  }

  /** A relative path gives the same address with or without its leading slash. */
  lemma NormalizeLeadingSlash(p: string)
    requires p != "" && !StartsWith(p, "/") && !IsAbsoluteUrl(p)
    ensures NormalizeIconUrl(p) == CdnBase + "/" + p
    ensures NormalizeIconUrl("/" + p) == NormalizeIconUrl(p)
  {
    var q := "/" + p;
    assert q[0] == '/';
    assert NormalizeIconUrl(q) == CdnBase + q;
    assert CdnBase + q == CdnBase + "/" + p;
  }

  /** `mod.get('slug') or mod.get('project_id') or mod.get('id')`: the first truthy operand, else the last. */
  function FirstTruthy(a: Option<string>, b: Option<string>, c: Option<string>): (r: Option<string>)
    ensures Truthy(r) <==> Truthy(a) || Truthy(b) || Truthy(c)
    ensures Truthy(a) ==> r == a
    ensures !Truthy(a) && Truthy(b) ==> r == b
    ensures !Truthy(a) && !Truthy(b) ==> r == c
  {
    if Truthy(a) then a else if Truthy(b) then b else c
  }

  /**
   * `get_mod_icon_url` (gui.py:422-440): the normalised icon address when the
   * hit has a non-empty `icon_url`, otherwise an identifier to look the
   * project up with later.
   */
  function ModIconUrl(mod: ModHit): (r: Option<string>)
    ensures Truthy(mod.iconUrl) ==> r.Some? && IsAbsoluteUrl(r.value)
    ensures Truthy(mod.iconUrl) && IsAbsoluteUrl(mod.iconUrl.value) ==> r == mod.iconUrl
    ensures !Truthy(mod.iconUrl) ==> r == FirstTruthy(mod.slug, mod.projectId, mod.id)
    ensures Truthy(r) <==> Truthy(mod.iconUrl) || Truthy(mod.slug) || Truthy(mod.projectId) || Truthy(mod.id)
  {
    if Truthy(mod.iconUrl) then Some(NormalizeIconUrl(mod.iconUrl.value))
    else FirstTruthy(mod.slug, mod.projectId, mod.id)
  }

  /**
   * The address the `load_image` worker fetches (gui.py:475-495), for a truthy
   * `urlOrId`. A value that is not an absolute URL is looked up as a project:
   * `lookup` is `None` when no project came back (absent, empty or an
   * exception) and `Some(icon)` for a project whose `icon_url` is `icon`.
   */
  function ResolveIconUrl(urlOrId: string, lookup: Option<Option<string>>): (r: Option<string>)
    requires urlOrId != ""
    ensures r.Some? ==> r.value != "" && IsAbsoluteUrl(r.value)
    ensures IsAbsoluteUrl(urlOrId) ==> r == Some(urlOrId)
    ensures !IsAbsoluteUrl(urlOrId) ==> (r.Some? <==> lookup.Some? && Truthy(lookup.value))
  {
    if IsAbsoluteUrl(urlOrId) then
      Some(urlOrId)
    else
      match lookup
      case Some(icon) => if Truthy(icon) then Some(NormalizeIconUrl(icon.value)) else None
      case None => None
  }

  /**
   * The worker and `get_mod_icon_url` agree: when the hit names an icon, the
   * worker fetches exactly that address and never consults the registry.
   */
  lemma ResolveOfHitIcon(mod: ModHit, lookup: Option<Option<string>>)
    requires Truthy(mod.iconUrl)
    ensures ResolveIconUrl(ModIconUrl(mod).value, lookup) == Some(NormalizeIconUrl(mod.iconUrl.value))
  {
  }

  /**
   * Looking a project up by identifier normalises its icon exactly as
   * `get_mod_icon_url` would have normalised the same icon on the hit.
   */
  lemma ResolveAgreesWithHit(mod: ModHit, icon: string)
    requires !Truthy(mod.iconUrl) && Truthy(ModIconUrl(mod))
    requires !IsAbsoluteUrl(ModIconUrl(mod).value)
    requires icon != ""
    ensures ResolveIconUrl(ModIconUrl(mod).value, Some(Some(icon))) == ModIconUrl(mod.(iconUrl := Some(icon)))
  {
  }

  // ---------------------------------------------------------------------------
  // Grid placement (gui.py:445-448): two columns, filled row by row.
  // ---------------------------------------------------------------------------

  /** The cell of the item at `index`: `(index // 2, index % 2)`. */
  function GridCell(index: nat): (cell: (nat, nat))
    ensures cell.1 < 2
    ensures 2 * cell.0 + cell.1 == index
  {
    (index / 2, index % 2)
  }

  /** No two items share a cell. */
  lemma GridCellInjective(i: nat, j: nat)
    requires GridCell(i) == GridCell(j)
    ensures i == j
  {
  }

  /** Item `i + 2` sits right below item `i`. */
  lemma GridCellBelow(i: nat)
    ensures GridCell(i + 2) == (GridCell(i).0 + 1, GridCell(i).1)
  {
  }
}
