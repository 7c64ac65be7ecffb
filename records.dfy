/** The records that the tag dictionary is made of (main.go:14-41) and the
    projection of one decoded tag onto the flat JSON result (main.go:96-107). */
module Records {

  datatype Option<T> = None | Some(value: T)

  /** One localized description of a tag: `<desc lang="...">text</desc>`. */
  datatype Desc = Desc(lang: string, value: string)

  /** One `<tag>` element. `group` is the `g2` attribute. */
  datatype Tag = Tag(id: string, name: string, typeName: string, writable: bool, group: string, desc: seq<Desc>)

  /** One `<table>` element with its tags in document order. */
  datatype Table = Table(name: string, tags: seq<Tag>)

  /** The flat result written for one selected tag. */
  datatype JSONTag = JSONTag(writable: bool, path: string, group: string, description: map<string, string>, typeName: string)

  /** The language codes that occur in a description list. */
  function Langs(ds: seq<Desc>): set<string>
    decreases |ds|
  {
    if ds == [] then {} else Langs(ds[..|ds| - 1]) + {ds[|ds| - 1].lang}
  }

  /** A code is among `Langs(ds)` exactly when some description has it. */
  lemma {:induction false} LangsMembership(ds: seq<Desc>, lang: string)
    ensures lang in Langs(ds) <==> exists i :: 0 <= i < |ds| && ds[i].lang == lang
    decreases |ds|
  {
    if ds != [] {
      var init := ds[..|ds| - 1];
      LangsMembership(init, lang);
      if exists i :: 0 <= i < |ds| && ds[i].lang == lang {
        var i :| 0 <= i < |ds| && ds[i].lang == lang;
        if i < |ds| - 1 {
          assert init[i] == ds[i];
        }
      }
      if exists i :: 0 <= i < |init| && init[i].lang == lang {
        var i :| 0 <= i < |init| && init[i].lang == lang;
        assert ds[i] == init[i];
      }
    }
  }

  /** No description after position `i` has the same language as `ds[i]`. */
  predicate LastOfItsLang(ds: seq<Desc>, i: int)
    requires 0 <= i < |ds|
  {
    forall j :: i < j < |ds| ==> ds[j].lang != ds[i].lang
  }

  /** The description map of a tag: one key per language code, and for a
      repeated code the value of its last occurrence. */
  function DescMap(ds: seq<Desc>): (m: map<string, string>)
    ensures m.Keys == Langs(ds)
    ensures forall i :: 0 <= i < |ds| && LastOfItsLang(ds, i) ==> ds[i].lang in m && m[ds[i].lang] == ds[i].value
    decreases |ds|
  {
    if ds == [] then map[]
    else
      var init, last := ds[..|ds| - 1], ds[|ds| - 1];
      DescMap(init)[last.lang := last.value]
  }

  /** The loop that fills `descMap` one description at a time (main.go:96-99). */
  method BuildDescMap(ds: seq<Desc>) returns (m: map<string, string>)
    ensures m == DescMap(ds)
  {
    m := map[];
    for i := 0 to |ds|
      invariant m == DescMap(ds[..i])
    {
      assert ds[..i + 1][..i] == ds[..i];
      m := m[ds[i].lang := ds[i].value];
    }
    assert ds[..|ds|] == ds;
  }

  /** The result built for `tag` found in `table` (main.go:101-107). */
  function Project(table: Table, tag: Tag): (r: JSONTag)
    ensures r.group == table.name
    ensures r.path == r.group + ":" + tag.name
    ensures r.writable == tag.writable && r.typeName == tag.typeName
  {
    JSONTag(tag.writable, table.name + ":" + tag.name, table.name, DescMap(tag.desc), tag.typeName)
  }

  /** A result's description has one key per language code of the tag's
      descriptions, each with the text of the last description in that
      language. */
  lemma {:induction false} ProjectDescription(table: Table, tag: Tag)
    ensures var m := Project(table, tag).description;
            && (forall lang :: lang in m <==> exists i :: 0 <= i < |tag.desc| && tag.desc[i].lang == lang)
            && (forall i :: 0 <= i < |tag.desc| && LastOfItsLang(tag.desc, i) ==> m[tag.desc[i].lang] == tag.desc[i].value)
  {
    forall lang {
      LangsMembership(tag.desc, lang);
    }
  }

  /** Builds the result for `tag` found in `table` as the handler does:
      the description map first, then the record (main.go:96-107). */
  method BuildJSONTag(table: Table, tag: Tag) returns (r: JSONTag)
    ensures r == Project(table, tag)
  {
    var descMap := BuildDescMap(tag.desc);
    r := JSONTag(tag.writable, table.name + ":" + tag.name, table.name, descMap, tag.typeName);
  }

  /** Splits a path at its last colon into the part before and the part after. */
  function SplitAtLastColon(p: string): (r: Option<(string, string)>)
    ensures r.None? <==> ':' !in p
    ensures r.Some? ==> p == r.value.0 + ":" + r.value.1 && ':' !in r.value.1
    decreases |p|
  {
    if p == [] then None
    else if p[|p| - 1] == ':' then Some((p[..|p| - 1], []))
    else
      match SplitAtLastColon(p[..|p| - 1])
      case None => None
      case Some((g, n)) => Some((g, n + [p[|p| - 1]]))
  }

  /** A path `g:n` whose last part has no colon splits back into `g` and `n`. */
  lemma {:induction false} SplitJoined(g: string, n: string)
    requires ':' !in n
    ensures SplitAtLastColon(g + ":" + n) == Some((g, n))
    decreases |n|
  {
    var p := g + ":" + n;
    if n == [] {
      assert p[..|p| - 1] == g;
    } else {
      var n' := n[..|n| - 1];
      assert p[..|p| - 1] == g + ":" + n';
      assert n' + [n[|n| - 1]] == n;
      SplitJoined(g, n');
    }
  }

  /** The table name and the tag name can be read back from a result's path,
      provided the tag name has no colon (table names such as `XMP::dc` may). */
  lemma {:induction false} PathRoundTrip(table: Table, tag: Tag)
    requires ':' !in tag.name
    ensures SplitAtLastColon(Project(table, tag).path) == Some((table.name, tag.name))
  {
    SplitJoined(table.name, tag.name);
  }
}
