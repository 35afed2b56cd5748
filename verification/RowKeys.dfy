/** The keys of merged rows (`merge_children_keys`, src/utils.rs), their prefixing
    (src/transform/hub_key.rs) and the route that reads them back (src/routes.rs). */
module RowKeys {
  import opened Prelude
  import opened Text
  import opened Models

  const COLLECTIONS := "/library/collections/"
  const HUB_COLLECTIONS := "/hubs/library/collections/"
  const CHILDREN := "/children"

  function StripKey(key: string): string {
    RemoveAll(RemoveAll(RemoveAll(key, HUB_COLLECTIONS), COLLECTIONS), CHILDREN)
  }

  function CollectionKey(ids: string): string {
    COLLECTIONS + ids + CHILDREN
  }

  /** `merge_children_keys`. */
  function MergeChildrenKeys(left: string, right: string): string {
    CollectionKey(StripKey(left) + "," + StripKey(right))
  }

  // ----- stripping -----

  lemma {:induction false} RemoveShort(s: string, pattern: string)
    requires |s| < |pattern|
    ensures RemoveAll(s, pattern) == s
  {
    if s != "" {
      RemoveShort(s[1..], pattern);
    }
  }

  /** Removal passes over text that does not contain the pattern's first character. */
  lemma {:induction false} RemoveSkips(s: string, t: string, pattern: string)
    requires pattern != "" && pattern[0] !in s
    ensures RemoveAll(s + t, pattern) == s + RemoveAll(t, pattern)
  {
    if s == "" {
      assert s + t == t;
    } else {
      assert (s + t)[1..] == s[1..] + t;
      assert (s + t)[0] == s[0];
      RemoveSkips(s[1..], t, pattern);
    }
  }

  /** Removal passes over a path segment that does not start the pattern. */
  lemma RemoveSkipsSegment(segment: string, t: string, pattern: string)
    requires pattern != "" && pattern[0] == '/' && '/' !in segment
    requires !(pattern <= "/" + segment + t)
    ensures RemoveAll("/" + segment + t, pattern) == "/" + segment + RemoveAll(t, pattern)
  {
    var s := "/" + segment + t;
    assert s[1..] == segment + t;
    RemoveSkips(segment, t, pattern);
    assert [s[0]] + (segment + RemoveAll(t, pattern)) == "/" + segment + RemoveAll(t, pattern);
  }

  lemma RemovePrefix(pattern: string, t: string)
    requires pattern != ""
    ensures RemoveAll(pattern + t, pattern) == RemoveAll(t, pattern)
  {
    assert (pattern + t)[|pattern|..] == t;
    assert (pattern + t)[..|pattern|] == pattern;
  }

  lemma StripSuffix(ids: string)
    requires '/' !in ids
    ensures RemoveAll(ids + CHILDREN, HUB_COLLECTIONS) == ids + CHILDREN
    ensures RemoveAll(ids + CHILDREN, COLLECTIONS) == ids + CHILDREN
    ensures RemoveAll(ids + CHILDREN, CHILDREN) == ids
  {
    RemoveSkips(ids, CHILDREN, HUB_COLLECTIONS);
    RemoveShort(CHILDREN, HUB_COLLECTIONS);
    RemoveSkips(ids, CHILDREN, COLLECTIONS);
    RemoveShort(CHILDREN, COLLECTIONS);
    RemoveSkips(ids, CHILDREN, CHILDREN);
    RemovePrefix(CHILDREN, "");
    assert CHILDREN + "" == CHILDREN;
    assert ids + "" == ids;
  }

  /** `/ids/children` has no third slash, which the longer prefix would need. */
  lemma KeyTailIsShort(ids: string)
    requires '/' !in ids
    ensures !(HUB_COLLECTIONS <= "/" + ids + CHILDREN)
  {
    var tail := "/" + ids + CHILDREN;
    assert HUB_COLLECTIONS[5] == '/' && HUB_COLLECTIONS[13] == '/';
    assert forall i | 1 <= i <= |ids| :: tail[i] == ids[i - 1];
    assert forall i | 1 + |ids| < i < |tail| :: tail[i] == CHILDREN[i - 1 - |ids|] && tail[i] != '/';
  }

  lemma SkipLibrary(t: string)
    ensures RemoveAll("/" + "library" + t, HUB_COLLECTIONS) == "/" + "library" + RemoveAll(t, HUB_COLLECTIONS)
  {
    assert HUB_COLLECTIONS[1] == 'h' && ("/" + "library" + t)[1] == 'l';
    RemoveSkipsSegment("library", t, HUB_COLLECTIONS);
  }

  lemma SkipCollections(t: string)
    ensures RemoveAll("/" + "collections" + t, HUB_COLLECTIONS) == "/" + "collections" + RemoveAll(t, HUB_COLLECTIONS)
  {
    assert HUB_COLLECTIONS[1] == 'h' && ("/" + "collections" + t)[1] == 'c';
    RemoveSkipsSegment("collections", t, HUB_COLLECTIONS);
  }

  lemma KeySegments(ids: string)
    ensures CollectionKey(ids) == "/" + "library" + ("/" + "collections" + ("/" + ids + CHILDREN))
  {
  }

  lemma KeyHasNoHubPrefix(ids: string)
    requires '/' !in ids
    ensures RemoveAll(CollectionKey(ids), HUB_COLLECTIONS) == CollectionKey(ids)
  {
    var tail := "/" + ids + CHILDREN;
    KeySegments(ids);
    SkipLibrary("/" + "collections" + tail);
    SkipCollections(tail);
    KeyTailIsShort(ids);
    RemoveSkipsSegment(ids, CHILDREN, HUB_COLLECTIONS);
    RemoveShort(CHILDREN, HUB_COLLECTIONS);
  }

  lemma StripCollectionKey(ids: string)
    requires '/' !in ids
    ensures StripKey(CollectionKey(ids)) == ids
  {
    StripSuffix(ids);
    KeyHasNoHubPrefix(ids);
    KeysAssociate(ids);
    RemovePrefix(COLLECTIONS, ids + CHILDREN);
  }

  /** Both forms of a collection's key are stripped down to its ids. */
  lemma StripBothForms(ids: string)
    requires '/' !in ids
    ensures StripKey("/library/collections/" + ids + "/children") == ids
    ensures StripKey("/hubs/library/collections/" + ids + "/children") == ids
  {
    StripCollectionKey(ids);
    StripHubKey(ids);
  }

  lemma StripHubKey(ids: string)
    requires '/' !in ids
    ensures StripKey(HUB_COLLECTIONS + ids + CHILDREN) == ids
  {
    StripSuffix(ids);
    KeysAssociate(ids);
    RemovePrefix(HUB_COLLECTIONS, ids + CHILDREN);
  }

  lemma KeysAssociate(ids: string)
    ensures CollectionKey(ids) == COLLECTIONS + (ids + CHILDREN)
    ensures HUB_COLLECTIONS + ids + CHILDREN == HUB_COLLECTIONS + (ids + CHILDREN)
  {
  }

  // ----- ids -----

  /** `split(',')` and the parts that parse as `u32`. */
  function ParsedIds(parts: seq<string>): seq<nat> {
    if parts == [] then []
    else
      (match ParseUnsigned(parts[0], U32_MAX)
       case Some(id) => [id]
       case None => []) + ParsedIds(parts[1..])
  }

  function ParseIds(text: string): seq<nat> {
    ParsedIds(Split(text, ','))
  }

  function Decimals(ids: seq<nat>): (r: seq<string>)
    ensures |r| == |ids|
    ensures forall i | 0 <= i < |ids| :: r[i] == Decimal(ids[i])
  {
    if ids == [] then [] else [Decimal(ids[0])] + Decimals(ids[1..])
  }

  function PrintIds(ids: seq<nat>): string {
    Join(Decimals(ids), ",")
  }

  ghost predicate AreU32(ids: seq<nat>) {
    forall i | 0 <= i < |ids| :: ids[i] <= U32_MAX
  }

  lemma {:induction false} ParsedDecimals(ids: seq<nat>)
    requires AreU32(ids)
    ensures ParsedIds(Decimals(ids)) == ids
  {
    if ids != [] {
      ParseDecimal(ids[0], U32_MAX);
      ParsedDecimals(ids[1..]);
      assert Decimals(ids)[1..] == Decimals(ids[1..]);
    }
  }

  /** Parsing undoes printing: the same ids in the same order. */
  lemma ParsePrintedIds(ids: seq<nat>)
    requires ids != [] && AreU32(ids)
    ensures ParseIds(PrintIds(ids)) == ids
  {
    forall p | p in Decimals(ids) ensures ',' !in p {
      assert AllDigits(p);
    }
    SplitJoin(Decimals(ids), ',');
    ParsedDecimals(ids);
  }

  lemma {:induction false} PrintIdsAppend(ids: seq<nat>, last: nat)
    requires ids != []
    ensures PrintIds(ids + [last]) == PrintIds(ids) + "," + Decimal(last)
  {
    assert Decimals(ids + [last]) == Decimals(ids) + [Decimal(last)];
    JoinAppend(Decimals(ids), Decimal(last), ",");
  }

  lemma PrintedIdsHaveNoSlash(ids: seq<nat>)
    ensures '/' !in PrintIds(ids)
  {
    forall p | p in Decimals(ids) ensures '/' !in p {
      assert AllDigits(p);
    }
    JoinKeepsOut(Decimals(ids), ",", '/');
  }

  // ----- folding keys -----

  /** A key of one collection, as the server writes it. */
  predicate NamesCollection(key: string, id: nat) {
    key == CollectionKey(Decimal(id)) || key == HUB_COLLECTIONS + Decimal(id) + CHILDREN
  }

  function FoldKeys(first: string, others: seq<string>): string
    decreases others
  {
    if others == [] then first else FoldKeys(MergeChildrenKeys(first, others[0]), others[1..])
  }

  lemma MergePrintsIds(key: string, ids: seq<nat>, other: string, id: nat)
    requires ids != [] && NamesCollection(other, id)
    requires key == CollectionKey(PrintIds(ids)) || (|ids| == 1 && NamesCollection(key, ids[0]))
    ensures MergeChildrenKeys(key, other) == CollectionKey(PrintIds(ids + [id]))
  {
    PrintedIdsHaveNoSlash(ids);
    PrintedIdsHaveNoSlash([id]);
    assert PrintIds([id]) == Decimal(id);
    if |ids| == 1 {
      assert PrintIds(ids) == Decimal(ids[0]);
    }
    StripCollectionKey(PrintIds(ids));
    StripHubKey(PrintIds(ids));
    StripCollectionKey(Decimal(id));
    StripHubKey(Decimal(id));
    PrintIdsAppend(ids, id);
  }

  /** Folding the keys of several collections prints all their ids, in order. */
  lemma {:induction false} FoldPrintsIds(key: string, ids: seq<nat>, others: seq<string>, otherIds: seq<nat>)
    requires ids != [] && (key == CollectionKey(PrintIds(ids)) || (|ids| == 1 && NamesCollection(key, ids[0])))
    requires |others| == |otherIds| && forall i | 0 <= i < |others| :: NamesCollection(others[i], otherIds[i])
    ensures others != [] ==> FoldKeys(key, others) == CollectionKey(PrintIds(ids + otherIds))
    decreases others
  {
    if others != [] {
      MergePrintsIds(key, ids, others[0], otherIds[0]);
      var next := MergeChildrenKeys(key, others[0]);
      assert ids + [otherIds[0]] + otherIds[1..] == ids + otherIds;
      FoldPrintsIds(next, ids + [otherIds[0]], others[1..], otherIds[1..]);
      if |others| == 1 {
        assert others[1..] == [] && otherIds == [otherIds[0]];
      }
    }
  }

  // ----- the route -----

  /** The key that makes a client come back through the proxy; a hub without a style is a shelf. */
  function Prefixed(key: string, style: Option<string>): string {
    if StartsWith(key, "/replex") then key else "/replex/" + style.GetOr("shelf") + key
  }

  /** `HubKeyTransform::transform_metadata`. */
  function HubKeyed(item: MetaData, style: Option<string>): MetaData {
    if item.IsHub() && item.key.Some? then item.(key := Some(Prefixed(item.key.value, style))) else item
  }

  /** The `<ids>` of `/replex/<style>/library/collections/<ids>/children`. */
  function RouteIds(path: string): Option<string> {
    var segments := Split(path, '/');
    if |segments| == 7 && segments[0] == "" && segments[1] == "replex" && segments[2] != ""
      && segments[3] == "library" && segments[4] == "collections" && segments[5] != "" && segments[6] == "children"
    then Some(segments[5]) else None
  }

  /** Applying the transform twice, whatever the styles, is applying it once. */
  lemma HubKeyedOnce(item: MetaData, style: Option<string>, other: Option<string>)
    ensures HubKeyed(HubKeyed(item, style), other) == HubKeyed(item, style)
  {
    if item.IsHub() && item.key.Some? {
      var r := Prefixed(item.key.value, style);
      assert StartsWith(r, "/replex") by {
        if !StartsWith(item.key.value, "/replex") {
          assert r[..7] == "/replex";
        }
      }
    }
  }

  lemma JoinSegments(style: string, ids: string)
    ensures Join(["", "replex", style, "library", "collections", ids, "children"], "/")
         == "/replex/" + style + CollectionKey(ids)
  {
    var tail := Join([ids, "children"], "/");
    JoinStep(ids, ["children"]);
    JoinStep("collections", [ids, "children"]);
    JoinStep("library", ["collections", ids, "children"]);
    JoinStep(style, ["library", "collections", ids, "children"]);
    JoinStep("replex", [style, "library", "collections", ids, "children"]);
    JoinStep("", ["replex", style, "library", "collections", ids, "children"]);
    PrefixedText(style, ids);
  }

  lemma PrefixedText(style: string, ids: string)
    ensures "" + "/" + ("replex" + "/" + (style + "/" + ("library" + "/" + ("collections" + "/" + (ids + "/" + "children")))))
         == "/replex/" + style + CollectionKey(ids)
  {
    InnerText(ids);
    var inner := "library" + "/" + ("collections" + "/" + (ids + "/" + "children"));
    assert "" + "/" + ("replex" + "/" + (style + "/" + inner)) == "/replex/" + style + ("/" + inner);
  }

  lemma InnerText(ids: string)
    ensures "/" + ("library" + "/" + ("collections" + "/" + (ids + "/" + "children"))) == CollectionKey(ids)
  {
    assert "/" + ("library" + "/" + ("collections" + "/")) == COLLECTIONS;
  }

  lemma JoinStep(first: string, rest: seq<string>)
    requires rest != []
    ensures Join([first] + rest, "/") == first + "/" + Join(rest, "/")
  {
    assert ([first] + rest)[1..] == rest;
  }

  lemma RouteOfSegments(style: string, ids: string)
    requires style != "" && ids != "" && '/' !in style && '/' !in ids
    ensures RouteIds("/replex/" + style + CollectionKey(ids)) == Some(ids)
  {
    var segments := ["", "replex", style, "library", "collections", ids, "children"];
    JoinSegments(style, ids);
    SplitJoin(segments, '/');
  }

  ghost predicate IsRouted(path: string, style: string, ids: string) {
    && style != "" && ids != "" && '/' !in style && '/' !in ids
    && path == "/replex/" + style + ("/library/collections/" + ids + "/children")
  }

  /** The route takes exactly the paths of that form, whatever the style, and reads the ids in it. */
  lemma RoutesExactly(path: string, ids: string)
    ensures RouteIds(path) == Some(ids) <==> exists style :: IsRouted(path, style, ids)
  {
    if style :| IsRouted(path, style, ids) {
      RouteOfSegments(style, ids);
    }
    if RouteIds(path) == Some(ids) {
      var s := Split(path, '/');
      JoinSplit(path, '/');
      assert s == ["", "replex", s[2], "library", "collections", ids, "children"];
      assert s[2] in s && ids in s;
      JoinSegments(s[2], ids);
      assert IsRouted(path, s[2], ids);
    }
  }

  /** Only the key of a hub that has one changes, by the prefix. */
  lemma KeysExactly(item: MetaData, style: Option<string>)
    ensures HubKeyed(item, style) ==
              if item.hubIdentifier.Some? && exists k :: item.key == Some(k) && !("/replex" <= k)
              then item.(key := Some("/replex/" + (if style.Some? then style.value else "shelf") + item.key.value))
              else item
  {
    if item.key.Some? {
      assert item.key == Some(item.key.value);
      assert item.(key := Some(item.key.value)) == item;
    }
  }

  /** A row's key, once prefixed, is routed back to the ids in it. */
  lemma RouteFindsIds(ids: seq<nat>, style: Option<string>)
    requires ids != [] && AreU32(ids)
    requires style.Some? ==> style.value != "" && '/' !in style.value
    ensures var r := RouteIds(Prefixed(CollectionKey(PrintIds(ids)), style));
            r.Some? && ParseIds(r.value) == ids
  {
    var text := PrintIds(ids);
    PrintedIdsHaveNoSlash(ids);
    ParsePrintedIds(ids);
    assert ParseIds("") == [];
    assert CollectionKey(text)[1] == 'l';
    RouteOfSegments(style.GetOr("shelf"), text);
  }
}
