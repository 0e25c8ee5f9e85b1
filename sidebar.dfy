/**
 * The navigation list of the sidebar (`SidebarContent`): which item is marked
 * as the current page, and what clicking a link does.
 */
module Sidebar {
  import opened Wrappers

  /** An entry of `sidebarItems`: its `label` (here `caption`) and its `path`. */
  datatype Item = Item(caption: string, path: string)

  /** The callbacks a link click can make. */
  datatype Callback = OnClose

  /**
   * A rendered `ListItem`: its key, its `aria-current`, the `selected` passed to
   * `SidebarItem`, and the callbacks its `onLinkClick` handler makes when run.
   */
  datatype Entry = Entry(key: string, ariaCurrent: bool, selected: bool, onLinkClick: seq<Callback>)

  /** `handleClickLink`, the one handler every entry shares: it calls `onClose`. */
  const HandleClickLink: seq<Callback> := [OnClose]

  predicate StartsWith(s: string, prefix: string) {
    |prefix| <= |s| && s[..|prefix|] == prefix
  }

  /** `!!(currentPath && (currentPath === item.path || currentPath.startsWith(item.path + "/")))` */
  predicate Selected(currentPath: Option<string>, itemPath: string)
    ensures Selected(currentPath, itemPath) ==>
              currentPath.Some? && |itemPath| <= |currentPath.value| && currentPath.value[..|itemPath|] == itemPath
  {
    currentPath.Some? && currentPath.value != ""
    && (currentPath.value == itemPath || StartsWith(currentPath.value, itemPath + "/"))
  }

  /**
   * An item is selected exactly when the current path is that item's path or
   * lies below it: the item path followed by a `/` boundary.
   */
  lemma SelectedIff(currentPath: Option<string>, itemPath: string)
    ensures Selected(currentPath, itemPath) <==>
              currentPath.Some? && currentPath.value != ""
              && (currentPath.value == itemPath
                  || (|itemPath| < |currentPath.value| && currentPath.value[..|itemPath|] == itemPath
                      && currentPath.value[|itemPath|] == '/'))
  {
    if currentPath.Some? {
      var p := currentPath.value;
      var q := itemPath + "/";
      if StartsWith(p, q) {
        assert p[..|itemPath|] == p[..|q|][..|itemPath|];
        assert p[|itemPath|] == p[..|q|][|itemPath|];
      }
      if |itemPath| < |p| && p[..|itemPath|] == itemPath && p[|itemPath|] == '/' {
        assert p[..|q|] == p[..|itemPath|] + [p[|itemPath|]];
      }
    }
  }

  /**
   * The `/` boundary in general: a current path that continues the item path
   * with any character other than `/` does not select the item.
   */
  lemma {:induction false} PrefixWithoutSlashNotSelected(p: string, itemPath: string)
    requires |itemPath| < |p| && p[..|itemPath|] == itemPath && p[|itemPath|] != '/'
    ensures !Selected(Some(p), itemPath)
  {
    SelectedIff(Some(p), itemPath);
  }

  /** No current path, or an empty one, selects nothing. */
  lemma NoPathSelectsNothing(itemPath: string)
    ensures !Selected(None, itemPath) && !Selected(Some(""), itemPath)
  {
  }

  /** A string prefix without the `/` boundary does not select: `/rutinas2` does not select `/rutinas`. */
  lemma BoundaryRespected()
    ensures !Selected(Some("/rutinas2"), "/rutinas")
    ensures Selected(Some("/rutinas/5"), "/rutinas")
    ensures Selected(Some("/rutinas"), "/rutinas")
  {
    SelectedIff(Some("/rutinas2"), "/rutinas");
    SelectedIff(Some("/rutinas/5"), "/rutinas");
  }

  /** Path `a` is `b` or lies below `b`. */
  predicate Within(a: string, b: string) {
    a == b || StartsWith(a, b + "/")
  }

  /** Two item paths selected by the same current path are nested: one lies within the other. */
  lemma SelectedPathsNest(p: string, a: string, b: string)
    requires Selected(Some(p), a) && Selected(Some(p), b)
    ensures Within(a, b) || Within(b, a)
  {
    SelectedIff(Some(p), a);
    SelectedIff(Some(p), b);
    if |a| < |b| {
      assert b[..|a|] == p[..|a|];
      assert b[|a|] == p[|a|];
      SelectedIff(Some(b), a);
    } else if |b| < |a| {
      assert a[..|b|] == p[..|b|];
      assert a[|b|] == p[|b|];
      SelectedIff(Some(a), b);
    } else {
      assert a == p[..|a|];
    }
  }

  /**
   * If no item path lies within another, at most one item is selected,
   * whatever the current path.
   */
  lemma AtMostOneSelected(currentPath: Option<string>, items: seq<Item>, i: nat, j: nat)
    requires i < |items| && j < |items| && i != j
    requires !Within(items[i].path, items[j].path) && !Within(items[j].path, items[i].path)
    ensures !(Selected(currentPath, items[i].path) && Selected(currentPath, items[j].path))
  {
    if Selected(currentPath, items[i].path) && Selected(currentPath, items[j].path) {
      SelectedPathsNest(currentPath.value, items[i].path, items[j].path);
    }
  }

  /** `items.map(...)` in `SidebarContent`: one list entry per item, in order. */
  function SidebarEntries(currentPath: Option<string>, items: seq<Item>): (entries: seq<Entry>)
    ensures |entries| == |items|
    ensures forall k :: 0 <= k < |items| ==>
              entries[k].key == items[k].caption
              && entries[k].ariaCurrent == entries[k].selected == Selected(currentPath, items[k].path)
    ensures forall k :: 0 <= k < |items| ==> entries[k].onLinkClick == [OnClose]
  {
    if items == [] then []
    else
      var selected := Selected(currentPath, items[0].path);
      [Entry(items[0].caption, selected, selected, HandleClickLink)] + SidebarEntries(currentPath, items[1..])
  }
}
