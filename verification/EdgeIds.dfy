/** atlas/registry/architecture_parse.py, `edge_canonical_id`: the registry's join key for a reach edge. */
module EdgeIds {
  import opened Wrappers
  import opened Sequences

  /** A declared edge's fields, as text. */
  type Edge = map<string, string>

  /** None is MalformedReachEdge: a field is missing. */
  function EdgeCanonicalId(name: string, edge: Edge): Option<string>
  {
    if "repo" in edge && "path" in edge && "direction" in edge then
      Some(edge["repo"] + ":" + edge["path"] + ":" + edge["direction"] + ":" + name)
    else None
  }

  predicate HasId(edge: Edge)
  {
    "repo" in edge && "path" in edge && "direction" in edge
  }

  predicate ColonFree(name: string, edge: Edge)
    requires HasId(edge)
  {
    ':' !in edge["repo"] && ':' !in edge["direction"] && ':' !in name
  }

  lemma IdParts(name: string, edge: Edge)
    requires HasId(edge) && ColonFree(name, edge)
    ensures Split(EdgeCanonicalId(name, edge).value, ':') ==
            [edge["repo"]] + Split(edge["path"], ':') + [edge["direction"]] + [name]
  {
    var repo, path, direction := edge["repo"], edge["path"], edge["direction"];
    var front := repo + [':'] + path;
    SplitWhole(repo, ':');
    SplitWhole(direction, ':');
    SplitWhole(name, ':');
    SplitAcross(repo, path, ':');
    SplitAcross(front, direction, ':');
    SplitAcross(front + [':'] + direction, name, ':');
    assert EdgeCanonicalId(name, edge).value == front + [':'] + direction + [':'] + name;
  }

  /** Where repo, direction and name hold no colon, the id tells edges apart; the path may hold any. */
  lemma ColonFreeIdsAreInjective(name: string, edge: Edge, other: string, otherEdge: Edge)
    requires HasId(edge) && ColonFree(name, edge) && HasId(otherEdge) && ColonFree(other, otherEdge)
    requires EdgeCanonicalId(name, edge) == EdgeCanonicalId(other, otherEdge)
    ensures name == other
    ensures forall field | field in {"repo", "path", "direction"} :: edge[field] == otherEdge[field]
  {
    hide Split, Join;
    IdParts(name, edge);
    IdParts(other, otherEdge);
    var parts := Split(EdgeCanonicalId(name, edge).value, ':');
    var a, b := Split(edge["path"], ':'), Split(otherEdge["path"], ':');
    assert |a| == |parts| - 3 == |b|;
    assert parts[0] == edge["repo"] == otherEdge["repo"];
    assert parts[|parts| - 1] == name == other;
    assert parts[|parts| - 2] == edge["direction"] == otherEdge["direction"];
    assert a == parts[1..|parts| - 2] == b;
    JoinSplit(edge["path"], ':');
    JoinSplit(otherEdge["path"], ':');
  }

  /** A colon in the repo, or in the direction, always leaves a second edge with the same id. */
  lemma ColonCollides(name: string, edge: Edge, head: string, tail: string)
    requires HasId(edge)
    ensures edge["repo"] == head + ":" + tail ==>
              var other := edge["repo" := head]["path" := tail + ":" + edge["path"]];
              other != edge && EdgeCanonicalId(name, other) == EdgeCanonicalId(name, edge)
    ensures edge["direction"] == head + ":" + tail ==>
              var other := edge["path" := edge["path"] + ":" + head]["direction" := tail];
              other != edge && EdgeCanonicalId(name, other) == EdgeCanonicalId(name, edge)
  {
    var repo, path, direction := edge["repo"], edge["path"], edge["direction"];
    if repo == head + ":" + tail {
      var other := edge["repo" := head]["path" := tail + ":" + path];
      assert head + ":" + (tail + ":" + path) == repo + ":" + path;
      assert |other["repo"]| < |repo|;
    }
    if direction == head + ":" + tail {
      var other := edge["path" := path + ":" + head]["direction" := tail];
      assert repo + ":" + (path + ":" + head) + ":" + tail == repo + ":" + path + ":" + direction;
      assert |other["direction"]| < |direction|;
    }
  }
}
