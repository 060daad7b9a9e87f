/** Scroll-driven highlighting of the navigation bar (`updateActiveNavLink`). */
module Navigation {
  import opened JsText

  /** A page section as the handler reads it: its `id` attribute (null when absent),
      `offsetTop` and `offsetHeight`. */
  datatype Section = Section(id: Option<string>, offsetTop: real, offsetHeight: real)

  /** How far above its top a section already counts as the one being read. */
  const ScrollOffset: real := 150.0

  /** `scrollY` lies in the section's window `[top - 150, top - 150 + height)`. */
  predicate InWindow(s: Section, scrollY: real)
    ensures InWindow(s, scrollY) ==> 0.0 < s.offsetHeight
  {
    s.offsetTop - ScrollOffset <= scrollY < s.offsetTop - ScrollOffset + s.offsetHeight
  }

  /** The value of `current` once the sections have been visited in order: the id of the
      last section whose window holds `scrollY`, or the initial '' when none does. */
  function Current(sections: seq<Section>, scrollY: real): (current: Option<string>)
    ensures current == Some("") ||
            exists j | 0 <= j < |sections| :: InWindow(sections[j], scrollY) && current == sections[j].id
  {
    if sections == [] then Some("")
    else if InWindow(sections[|sections| - 1], scrollY) then sections[|sections| - 1].id
    else Current(sections[..|sections| - 1], scrollY)
  }

  /** When no window holds `scrollY`, `current` keeps its initial ''. */
  lemma {:induction false} CurrentWhenNoneMatches(sections: seq<Section>, scrollY: real)
    requires forall k | 0 <= k < |sections| :: !InWindow(sections[k], scrollY)
    ensures Current(sections, scrollY) == Some("")
  {
    if sections != [] {
      var front := sections[..|sections| - 1];
      assert forall k | 0 <= k < |front| :: front[k] == sections[k];
      CurrentWhenNoneMatches(front, scrollY);
    }
  }

  /** When section `j` matches and no later one does, `current` is section `j`'s id. */
  lemma {:induction false} CurrentIsLastMatch(sections: seq<Section>, scrollY: real, j: nat)
    requires j < |sections| && InWindow(sections[j], scrollY)
    requires forall k | j < k < |sections| :: !InWindow(sections[k], scrollY)
    ensures Current(sections, scrollY) == sections[j].id
  {
    if j < |sections| - 1 {
      var front := sections[..|sections| - 1];
      assert forall k | 0 <= k < |front| :: front[k] == sections[k];
      CurrentIsLastMatch(front, scrollY, j);
    }
  }

  /** The href that is highlighted: `#${current}`. */
  function ActiveHref(current: Option<string>): string
  {
    "#" + TemplateText(current)
  }

  /** Two values of `current` light the same link exactly when they print the same; so a
      missing id and the id "null" light the same link. */
  lemma ActiveHrefSameIffSameText(a: Option<string>, b: Option<string>)
    ensures ActiveHref(a) == ActiveHref(b) <==> TemplateText(a) == TemplateText(b)
    ensures ActiveHref(None) == ActiveHref(Some("null"))
  {
    if ActiveHref(a) == ActiveHref(b) {
      assert TemplateText(a) == ActiveHref(a)[1..];
      assert TemplateText(b) == ActiveHref(b)[1..];
    }
  }

  /** The first loop of the handler: it walks the sections, overwriting `current` on
      each match. */
  method SelectCurrent(sections: seq<Section>, scrollY: real) returns (current: Option<string>)
    ensures current == Current(sections, scrollY)
  {
    current := Some("");
    for i := 0 to |sections|
      invariant current == Current(sections[..i], scrollY)
    {
      assert sections[..i + 1][..i] == sections[..i];
      if InWindow(sections[i], scrollY) {
        current := sections[i].id;
      }
    }
    assert sections[..|sections|] == sections;
  }

  /** The whole handler: each link is marked active exactly when its href is
      `#` followed by the selected id, and every other link is cleared. */
  method UpdateActiveNavLink(sections: seq<Section>, scrollY: real, hrefs: seq<Option<string>>, active: array<bool>)
    requires |hrefs| == active.Length
    modifies active
    ensures forall k | 0 <= k < active.Length ::
              active[k] <==> hrefs[k] == Some(ActiveHref(Current(sections, scrollY)))
  {
    var current := SelectCurrent(sections, scrollY);
    var target := ActiveHref(current);
    for k := 0 to active.Length
      invariant forall m | 0 <= m < k :: active[m] <==> hrefs[m] == Some(target)
    {
      active[k] := false;
      if hrefs[k] == Some(target) {
        active[k] := true;
      }
    }
  }

  /** A matching section without an id leaves `current` null, and the link "#null" is lit. */
  lemma MissingIdHighlightsNull(sections: seq<Section>, scrollY: real)
    requires sections != [] && sections[|sections| - 1].id.None?
    requires InWindow(sections[|sections| - 1], scrollY)
    ensures ActiveHref(Current(sections, scrollY)) == "#null"
  {
  }
}
