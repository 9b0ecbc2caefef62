/** The version catalog: the supported game versions read from the image
    registry's tag list, and the minimum among them. */
module Catalog {

  import opened Options
  import opened Versions

  /** What the registry's tag listing answered: the HTTP status and the `name`
      of every entry of `results`, in the order the registry sent them. */
  datatype RegistryResponse = RegistryResponse(status: int, names: seq<string>)

  /** The catalog state: `latest_tags` and `min_supported_tag`. */
  datatype Catalog = Catalog(tags: seq<Version>, minimum: Option<Version>)

  /** `m` is in `vs` and no member of `vs` precedes it. */
  predicate IsLeast(m: Version, vs: seq<Version>) {
    m in vs && forall v | v in vs :: LessEq(m, v)
  }

  /** The minimum is present exactly when there are tags, and then it is the least tag. */
  predicate Consistent(c: Catalog) {
    && (c.minimum.None? <==> c.tags == [])
    && (c.minimum.Some? ==> IsLeast(c.minimum.value, c.tags))
  }

  /** The versions of the tag names that parse, in input order; the others are skipped. */
  function ParseTags(names: seq<string>): (tags: seq<Version>)
    ensures |tags| <= |names|
  {
    if names == [] then []
    else
      var init := ParseTags(names[..|names| - 1]);
      match Parse(names[|names| - 1])
      case None => init
      case Some(v) => init + [v]
  }

  /** A version is in the parsed catalog iff some tag name parses to it. */
  lemma {:induction false} ParseTagsMembers(names: seq<string>, v: Version)
    ensures v in ParseTags(names) <==> exists i | 0 <= i < |names| :: Parse(names[i]) == Some(v)
  {
    if names != [] {
      var init := names[..|names| - 1];
      ParseTagsMembers(init, v);
      if exists i | 0 <= i < |names| :: Parse(names[i]) == Some(v) {
        var i :| 0 <= i < |names| && Parse(names[i]) == Some(v);
        if i < |init| {
          assert Parse(init[i]) == Some(v);
        }
      }
      if exists i | 0 <= i < |init| :: Parse(init[i]) == Some(v) {
        var i :| 0 <= i < |init| && Parse(init[i]) == Some(v);
        assert Parse(names[i]) == Some(v);
      }
    }
  }

  /** Parsing distributes over concatenation: the catalog keeps input order. */
  lemma {:induction false} ParseTagsAppend(a: seq<string>, b: seq<string>)
    ensures ParseTags(a + b) == ParseTags(a) + ParseTags(b)
  {
    if b == [] {
      assert a + b == a;
    } else {
      var b' := b[..|b| - 1];
      assert (a + b)[..|a + b| - 1] == a + b';
      assert (a + b)[|a + b| - 1] == b[|b| - 1];
      ParseTagsAppend(a, b');
    }
  }

  /** The first of the least versions in `vs`, scanning left to right and
      replacing the candidate only by a strictly smaller version. */
  function Minimum(vs: seq<Version>): (m: Option<Version>)
    ensures m.None? <==> vs == []
    ensures m.Some? ==> IsLeast(m.value, vs)
  {
    if vs == [] then None
    else
      var init := vs[..|vs| - 1];
      var last := vs[|vs| - 1];
      assert vs == init + [last];
      var m := Minimum(init);
      if m.None? || Less(last, m.value) then Some(last) else m
  }

  /** The tag-collecting loop of the catalog refresh: both results are built
      in one pass over the names. */
  method ScanTags(names: seq<string>) returns (tags: seq<Version>, minTag: Option<Version>)
    ensures tags == ParseTags(names)
    ensures minTag == Minimum(tags)
  {
    tags := [];
    minTag := None;
    for i := 0 to |names|
      invariant tags == ParseTags(names[..i])
      invariant minTag == Minimum(tags)
    {
      assert names[..i + 1][..i] == names[..i];
      match Parse(names[i]) {
        case None =>
        case Some(version) =>
          if minTag.None? || Less(version, minTag.value) {
            minTag := Some(version);
          }
          assert (tags + [version])[..|tags|] == tags;
          tags := tags + [version];
      }
    }
    assert names[..|names|] == names;
  }

  /** The catalog after a refresh: untouched unless the registry answered 200,
      otherwise replaced as a whole by the parsed tags and their minimum. */
  function Refreshed(c: Catalog, response: RegistryResponse): (c': Catalog)
    ensures response.status != 200 ==> c' == c
    ensures response.status == 200 ==> c'.tags == ParseTags(response.names) && Consistent(c')
  {
    if response.status != 200 then c
    else
      var tags := ParseTags(response.names);
      Catalog(tags, Minimum(tags))
  }

  /** A refresh keeps the catalog consistent, whatever the registry answers. */
  lemma RefreshedConsistent(c: Catalog, response: RegistryResponse)
    requires Consistent(c)
    ensures Consistent(Refreshed(c, response))
  {
  }
}
