/** islands/NetworkVisualization.tsx: the data preparation that precedes the D3 drawing —
    score colour and size, the legend, node labels and defaults, and the edge filter. */
module NetworkVisualization {
  import opened Wrappers
  import opened EthosTypes
  import opened Credibility
  import opened Text
  import opened Seqs

  /** The ring colour of each tier. */
  function TierHex(t: Tier): string {
    match t
    case Untrusted => "#FF1493"
    case Questionable => "#FFD700"
    case Neutral => "#666666"
    case Reputable => "#00FFFF"
    case Exemplary => "#39FF14"
    case Revered => "#8A2BE2"
  }

  /** `getScoreColor`: the colour of the score's tier. */
  function ScoreColor(score: int): (color: string)
    ensures color == TierHex(TierOf(score))
  {
    if score < 800 then "#FF1493"
    else if score < 1200 then "#FFD700"
    else if score < 1600 then "#666666"
    else if score < 2000 then "#00FFFF"
    else if score < 2400 then "#39FF14"
    else "#8A2BE2"
  }

  /** Two scores get the same colour exactly when they are in the same tier. */
  lemma ScoreColorIdentifiesTier(s1: int, s2: int)
    ensures ScoreColor(s1) == ScoreColor(s2) <==> TierOf(s1) == TierOf(s2)
  {
  }

  /** The node radius of each tier. */
  function TierSize(t: Tier): nat {
    match t
    case Untrusted => 5
    case Questionable => 8
    case Neutral => 15
    case Reputable => 25
    case Exemplary => 35
    case Revered => 45
  }

  /** `getScoreSize`: the radius of the score's tier. */
  function ScoreSize(score: int): (size: nat)
    ensures size == TierSize(TierOf(score))
  {
    if score < 800 then 5
    else if score < 1200 then 8
    else if score < 1600 then 15
    else if score < 2000 then 25
    else if score < 2400 then 35
    else 45
  }

  /** A higher score never gets a smaller node, and two scores get the same size exactly when they share a tier. */
  lemma ScoreSizeMonotone(s1: int, s2: int)
    requires s1 <= s2
    ensures ScoreSize(s1) <= ScoreSize(s2)
    ensures ScoreSize(s1) == ScoreSize(s2) <==> TierOf(s1) == TierOf(s2)
  {
    TierMonotone(s1, s2);
  }

  /** Radius of the coloured ring drawn around a node. */
  function RingRadius(score: int): int {
    ScoreSize(score) + 3
  }

  /** Width and height of the avatar image inside a node (its diameter). */
  function ImageSize(score: int): int {
    ScoreSize(score) * 2
  }

  /** The ring lies 3 units outside the image, and both follow the node's tier alone. */
  lemma RingSurroundsImage(s1: int, s2: int)
    ensures RingRadius(s1) * 2 == ImageSize(s1) + 6
    ensures RingRadius(s1) > ImageSize(s1) / 2 >= 5
    ensures TierOf(s1) == TierOf(s2) ==> RingRadius(s1) == RingRadius(s2) && ImageSize(s1) == ImageSize(s2)
  {
  }

  /** One legend line: the swatch class, the range text and the tier name. */
  datatype LegendEntry = LegendEntry(swatch: string, range: string, name: string)

  /** The legend as the component renders it (both the floating and the embedded copy). */
  const Legend: seq<LegendEntry> := [
    LegendEntry("bg-retro-pink", "<800", "Untrusted"),
    LegendEntry("bg-retro-yellow", "800-1199", "Questionable"),
    LegendEntry("bg-gray-700", "1200-1599", "Neutral"),
    LegendEntry("bg-retro-cyan", "1600-1999", "Reputable"),
    LegendEntry("bg-retro-lime", "2000-2399", "Exemplary"),
    LegendEntry("bg-retro-purple", "2400+", "Revered")
  ]

  /** What a range text means: `<n`, `a-b` (both ends included) or `n+`. */
  datatype Range = Below(hi: int) | Between(lo: int, hi: int) | AtLeast(lo: int)

  predicate InRange(score: int, r: Range) {
    match r
    case Below(hi) => score < hi
    case Between(lo, hi) => lo <= score <= hi
    case AtLeast(lo) => lo <= score
  }

  predicate AllDigits(s: string) {
    |s| > 0 && forall i :: 0 <= i < |s| ==> IsDigit(s[i])
  }

  /** Reads a legend range text; None for text of any other shape. */
  function ParseRange(text: string): Option<Range> {
    if |text| >= 1 && text[0] == '<' && AllDigits(text[1..]) then
      Some(Below(ParseDigits(text[1..])))
    else if |text| >= 1 && text[|text| - 1] == '+' && AllDigits(text[..|text| - 1]) then
      Some(AtLeast(ParseDigits(text[..|text| - 1])))
    else
      var parts := Split(text, '-');
      if |parts| == 2 && AllDigits(parts[0]) && AllDigits(parts[1]) then
        Some(Between(ParseDigits(parts[0]), ParseDigits(parts[1])))
      else
        None
  }

  lemma ParseBetween(a: string, b: string, lo: nat, hi: nat)
    requires AllDigits(a) && AllDigits(b) && a[0] != '<' && b[|b| - 1] != '+'
    requires ParseDigits(a) == lo && ParseDigits(b) == hi
    ensures ParseRange(a + "-" + b) == Some(Between(lo, hi))
  {
    var text := a + "-" + b;
    assert text[0] == a[0] && text[|text| - 1] == b[|b| - 1];
    assert '-' !in a by {
      assert forall i :: 0 <= i < |a| ==> IsDigit(a[i]);
    }
    assert '-' !in b by {
      assert forall i :: 0 <= i < |b| ==> IsDigit(b[i]);
    }
    SplitAtFirst(a, '-', b);
    SplitNoSeparator(b, '-');
    assert a + "-" + b == a + ['-'] + b;
  }

  lemma ParseDigitsThree(s: string)
    requires |s| == 3 && AllDigits(s)
    ensures ParseDigits(s) == 100 * DigitValue(s[0]) + 10 * DigitValue(s[1]) + DigitValue(s[2])
  {
    var a := s[..2];
    var b := a[..1];
    assert ParseDigits(b) == DigitValue(s[0]) by {
      assert b[..0] == [] && b[0] == s[0];
    }
    assert ParseDigits(a) == 10 * ParseDigits(b) + DigitValue(s[1]) by {
      assert a[..1] == b && a[1] == s[1];
    }
  }

  lemma ParseDigitsFour(s: string)
    requires |s| == 4 && AllDigits(s)
    ensures ParseDigits(s) == 1000 * DigitValue(s[0]) + 100 * DigitValue(s[1]) + 10 * DigitValue(s[2]) + DigitValue(s[3])
  {
    assert AllDigits(s[..3]) && s[..3][0] == s[0] && s[..3][1] == s[1] && s[..3][2] == s[2];
    ParseDigitsThree(s[..3]);
  }

  /** The meaning of each legend line's range text, in legend order. */
  const LegendBands: seq<Range> := [
    Below(800), Between(800, 1199), Between(1200, 1599), Between(1600, 1999), Between(2000, 2399), AtLeast(2400)
  ]

  lemma ParseLegendBetween(a: string, b: string)
    requires (|a| == 3 || |a| == 4) && |b| == 4 && AllDigits(a) && AllDigits(b) && a[0] != '<'
    requires b[3] != '+'
    ensures ParseRange(a + "-" + b) == Some(Between(ParseDigits(a), ParseDigits(b)))
  {
    ParseBetween(a, b, ParseDigits(a), ParseDigits(b));
  }

  lemma ParseBelow800()
    ensures ParseRange("<800") == Some(Below(800))
  {
    assert "<800"[1..] == "800";
    ParseDigitsThree("800");
  }

  lemma ParseFrom2400()
    ensures ParseRange("2400+") == Some(AtLeast(2400))
  {
    assert "2400+"[..4] == "2400";
    ParseDigitsFour("2400");
  }

  lemma Parse800To1199()
    ensures ParseRange("800-1199") == Some(Between(800, 1199))
  {
    assert ParseDigits("800") == 800 by { ParseDigitsThree("800"); }
    assert ParseDigits("1199") == 1199 by { ParseDigitsFour("1199"); }
    assert "800" + "-" + "1199" == "800-1199";
    ParseLegendBetween("800", "1199");
  }

  lemma Parse1200To1599()
    ensures ParseRange("1200-1599") == Some(Between(1200, 1599))
  {
    assert ParseDigits("1200") == 1200 by { ParseDigitsFour("1200"); }
    assert ParseDigits("1599") == 1599 by { ParseDigitsFour("1599"); }
    assert "1200" + "-" + "1599" == "1200-1599";
    ParseLegendBetween("1200", "1599");
  }

  lemma Parse1600To1999()
    ensures ParseRange("1600-1999") == Some(Between(1600, 1999))
  {
    assert ParseDigits("1600") == 1600 by { ParseDigitsFour("1600"); }
    assert ParseDigits("1999") == 1999 by { ParseDigitsFour("1999"); }
    assert "1600" + "-" + "1999" == "1600-1999";
    ParseLegendBetween("1600", "1999");
  }

  lemma Parse2000To2399()
    ensures ParseRange("2000-2399") == Some(Between(2000, 2399))
  {
    assert ParseDigits("2000") == 2000 by { ParseDigitsFour("2000"); }
    assert ParseDigits("2399") == 2399 by { ParseDigitsFour("2399"); }
    assert "2000" + "-" + "2399" == "2000-2399";
    ParseLegendBetween("2000", "2399");
  }

  /** Each legend range text reads as the band listed for it. */
  lemma LegendRangesParse(i: nat)
    requires i < |Legend|
    ensures ParseRange(Legend[i].range) == Some(LegendBands[i])
  {
    if i == 0 { ParseBelow800(); }
    else if i == 1 { Parse800To1199(); }
    else if i == 2 { Parse1200To1599(); }
    else if i == 3 { Parse1600To1999(); }
    else if i == 4 { Parse2000To2399(); }
    else { ParseFrom2400(); }
  }

  /** For integer scores the bands partition the integers exactly as the tiers do. */
  lemma LegendBandsAreTiers(score: int, i: nat)
    requires i < |LegendBands|
    ensures InRange(score, LegendBands[i]) <==> Rank(TierOf(score)) == i
  {
  }

  /** For integer scores the six legend lines are exactly the six tiers, in order: a score
      falls in the range text of line i iff its tier has rank i. */
  lemma LegendMatchesTiers(score: int, i: nat)
    requires i < |Legend|
    ensures ParseRange(Legend[i].range).Some?
    ensures InRange(score, ParseRange(Legend[i].range).value) <==> Rank(TierOf(score)) == i
  {
    LegendRangesParse(i);
    LegendBandsAreTiers(score, i);
  }

  /** A node as the simulation receives it: label and score already defaulted. */
  datatype PreparedNode = PreparedNode(id: string, profileId: int, caption: string, level: int, score: int)

  /** `node.username || node.displayName || \`Profile ${node.profileId}\``: never empty. */
  function NodeLabel(node: NetworkNode): (caption: string)
    ensures caption != ""
    ensures Truthy(node.username) ==> caption == node.username.value
    ensures !Truthy(node.username) && Truthy(node.displayName) ==> caption == node.displayName.value
    ensures !Truthy(node.username) && !Truthy(node.displayName) ==> StartsWith(caption, "Profile ")
    ensures !Truthy(node.username) && !Truthy(node.displayName) ==>
      caption == "Profile " + IntToString(node.profileId)
  {
    if Truthy(node.username) then node.username.value
    else if Truthy(node.displayName) then node.displayName.value
    else "Profile " + IntToString(node.profileId)
  }

  /** The `nodes` map: identity fields copied, label chosen, `score || 0`. */
  function PrepareNode(node: NetworkNode): (p: PreparedNode)
    ensures p.id == node.id && p.profileId == node.profileId && p.level == node.level
    ensures p.caption == NodeLabel(node)
    ensures node.score.None? ==> p.score == 0
    ensures node.score.Some? ==> p.score == node.score.value
  {
    PreparedNode(node.id, node.profileId, NodeLabel(node), node.level, node.score.GetOr(0))
  }

  function PrepareNodes(nodes: seq<NetworkNode>): (prepared: seq<PreparedNode>)
    ensures |prepared| == |nodes|
    ensures forall i :: 0 <= i < |nodes| ==> prepared[i] == PrepareNode(nodes[i])
  {
    seq(|nodes|, i requires 0 <= i < |nodes| => PrepareNode(nodes[i]))
  }

  /** `new Set(nodes.map((n) => n.id))`. */
  function NodeIds(prepared: seq<PreparedNode>): (ids: set<string>)
    ensures forall i :: 0 <= i < |prepared| ==> prepared[i].id in ids
    ensures forall id :: id in ids ==> exists i :: 0 <= i < |prepared| && prepared[i].id == id
  {
    set i | 0 <= i < |prepared| :: prepared[i].id
  }

  /** The `links` filter: keep an edge only when both of its endpoints are node ids. */
  function FilterLinks(ids: set<string>, edges: seq<NetworkEdge>): (links: seq<NetworkEdge>)
    ensures |links| <= |edges|
    ensures forall e :: e in links <==> e in edges && e.source in ids && e.target in ids
  {
    if |edges| == 0 then []
    else if edges[0].source in ids && edges[0].target in ids then [edges[0]] + FilterLinks(ids, edges[1..])
    else FilterLinks(ids, edges[1..])
  }

  /** The kept links are in the order the edges came in. */
  lemma {:induction false} FilterLinksKeepsOrder(ids: set<string>, edges: seq<NetworkEdge>)
    ensures IsSubsequence(FilterLinks(ids, edges), edges)
  {
    if |edges| > 0 {
      FilterLinksKeepsOrder(ids, edges[1..]);
      var r := FilterLinks(ids, edges);
      if edges[0].source in ids && edges[0].target in ids {
        assert r[0] == edges[0] && r[1..] == FilterLinks(ids, edges[1..]);
      }
    }
  }

  /** An edge whose endpoints are all nodes is kept whole; filtering again changes nothing. */
  lemma {:induction false} FilterLinksIdempotent(ids: set<string>, edges: seq<NetworkEdge>)
    ensures FilterLinks(ids, FilterLinks(ids, edges)) == FilterLinks(ids, edges)
  {
    if |edges| > 0 {
      FilterLinksIdempotent(ids, edges[1..]);
      var r := FilterLinks(ids, edges);
      if edges[0].source in ids && edges[0].target in ids {
        assert r[0] == edges[0] && r[1..] == FilterLinks(ids, edges[1..]);
      }
    }
  }

  /** An id is a node id of the prepared graph exactly when some input node carries it. */
  lemma PreparedIds(nodes: seq<NetworkNode>, id: string)
    ensures id in NodeIds(PrepareNodes(nodes)) <==> exists i :: 0 <= i < |nodes| && nodes[i].id == id
  {
    var prepared := PrepareNodes(nodes);
    if exists i :: 0 <= i < |nodes| && nodes[i].id == id {
      var i :| 0 <= i < |nodes| && nodes[i].id == id;
      assert prepared[i].id == id;
    }
    if id in NodeIds(prepared) {
      var i :| 0 <= i < |prepared| && prepared[i].id == id;
      assert nodes[i].id == id;
    }
  }

  /** The links handed to the simulation: every edge between two nodes of the graph, and nothing else. */
  lemma LinksConnectNodes(nodes: seq<NetworkNode>, edges: seq<NetworkEdge>, e: NetworkEdge)
    ensures e in FilterLinks(NodeIds(PrepareNodes(nodes)), edges) <==>
      e in edges
      && (exists i :: 0 <= i < |nodes| && nodes[i].id == e.source)
      && (exists j :: 0 <= j < |nodes| && nodes[j].id == e.target)
  {
    PreparedIds(nodes, e.source);
    PreparedIds(nodes, e.target);
  }
}
