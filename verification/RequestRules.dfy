/**
  Which operation a request names: keyword rules, the specificity filter, and
  the choice between read-only and mutating operations.
 */
module RequestRules {
  import opened Outcomes

  /** An operation and the keyword sets that select it. */
  datatype Rule = Rule(id: string, sets: seq<seq<string>>)

  /** An operation the request matched, with the keywords that matched. */
  datatype Hit = Hit(id: string, keywords: seq<string>)

  // ----- Matching ------------------------------------------------------------------------

  predicate AllIn(keywords: seq<string>, words: seq<string>) {
    forall i :: 0 <= i < |keywords| ==> keywords[i] in words
  }

  /** The first keyword set whose words are all in the request. */
  function FirstPresent(sets: seq<seq<string>>, words: seq<string>): (r: Option<seq<string>>)
    ensures r.Some? ==> r.value in sets && AllIn(r.value, words)
    ensures r.None? ==> forall s :: s in sets ==> !AllIn(s, words)
  {
    if sets == [] then None
    else if AllIn(sets[0], words) then Some(sets[0])
    else FirstPresent(sets[1..], words)
  }

  predicate HasId(hits: seq<Hit>, id: string) {
    exists i :: 0 <= i < |hits| && hits[i].id == id
  }

  function HitsOf(table: seq<Rule>, words: seq<string>): (hits: seq<Hit>)
    ensures forall i, j :: 0 <= i < j < |hits| ==> hits[i].id != hits[j].id
    ensures forall i :: 0 <= i < |hits| ==> AllIn(hits[i].keywords, words)
  {
    if table == [] then []
    else
      var before, rule := HitsOf(table[..|table| - 1], words), table[|table| - 1];
      var present := FirstPresent(rule.sets, words);
      if present.Some? && !HasId(before, rule.id) then before + [Hit(rule.id, present.value)] else before
  }

  /** An operation is matched exactly if one of its keyword sets is fully present. */
  lemma {:induction false} MatchedIffPresent(table: seq<Rule>, words: seq<string>, id: string)
    ensures HasId(HitsOf(table, words), id) <==>
      exists k :: 0 <= k < |table| && table[k].id == id && FirstPresent(table[k].sets, words).Some?
  {
    if table != [] {
      var last := |table| - 1;
      var shorter := table[..last];
      MatchedIffPresent(shorter, words, id);
      var before, after := HitsOf(shorter, words), HitsOf(table, words);
      if HasId(before, id) {
        var i :| 0 <= i < |before| && before[i].id == id;
        assert after[i].id == id;
        var k :| 0 <= k < last && shorter[k].id == id && FirstPresent(shorter[k].sets, words).Some?;
        assert table[k] == shorter[k];
      } else {
        assert forall k :: 0 <= k < last ==> table[k] == shorter[k];
        if table[last].id == id && FirstPresent(table[last].sets, words).Some? {
          assert after[|before|].id == id;
        }
      }
    }
  }

  method MatchRules(table: seq<Rule>, words: seq<string>) returns (matched: seq<Hit>)
    ensures matched == HitsOf(table, words)
  {
    matched := [];
    for r := 0 to |table|
      invariant matched == HitsOf(table[..r], words)
    {
      var sets := table[r].sets;
      assert table[..r + 1][..r] == table[..r];
      ghost var before := matched;
      var s := 0;
      while s < |sets|
        invariant s <= |sets| && matched == before
        invariant FirstPresent(sets, words) == FirstPresent(sets[s..], words)
      {
        if AllIn(sets[s], words) {
          if !HasId(matched, table[r].id) {
            matched := matched + [Hit(table[r].id, sets[s])];
          }
          break;
        }
        assert sets[s..][1..] == sets[s + 1..];
        s := s + 1;
      }
    }
    assert table[..|table|] == table;
  }

  // ----- Specificity -------------------------------------------------------------------------

  /** Another operation matched more words, among them all of this one's. */
  predicate Outdone(hits: seq<Hit>, h: Hit) {
    exists i :: 0 <= i < |hits| &&
      hits[i].id != h.id && |hits[i].keywords| > |h.keywords| && AllIn(h.keywords, hits[i].keywords)
  }

  /** The operations that no more specific one describes, in match order. */
  function Survivors(hits: seq<Hit>, all: seq<Hit>): (r: seq<Hit>)
    ensures forall h :: h in r <==> h in hits && !Outdone(all, h)
    ensures |r| <= |hits|
  {
    if hits == [] then []
    else
      var rest := Survivors(hits[1..], all);
      if Outdone(all, hits[0]) then rest else [hits[0]] + rest
  }

  /**
    A dropped operation is always described by a surviving one: whatever matched,
    some survivor matched at least the same words.
   */
  lemma {:induction false} DroppedIsCovered(hits: seq<Hit>, h: Hit, most: nat) returns (s: Hit)
    requires h in hits
    requires forall i :: 0 <= i < |hits| ==> |hits[i].keywords| <= most
    ensures s in Survivors(hits, hits) && AllIn(h.keywords, s.keywords)
    decreases most - |h.keywords|
  {
    if Outdone(hits, h) {
      var i :| 0 <= i < |hits| &&
        hits[i].id != h.id && |hits[i].keywords| > |h.keywords| && AllIn(h.keywords, hits[i].keywords);
      s := DroppedIsCovered(hits, hits[i], most);
      forall k | 0 <= k < |h.keywords| ensures h.keywords[k] in s.keywords {
        assert h.keywords[k] in hits[i].keywords;
      }
    } else {
      s := h;
    }
  }

  function MostKeywords(hits: seq<Hit>): (n: nat)
    ensures forall i :: 0 <= i < |hits| ==> |hits[i].keywords| <= n
  {
    if hits == [] then 0
    else
      var n := MostKeywords(hits[1..]);
      assert forall i :: 1 <= i < |hits| ==> hits[i] == hits[1..][i - 1];
      if n < |hits[0].keywords| then |hits[0].keywords| else n
  }

  lemma SomeSurvive(hits: seq<Hit>)
    requires hits != []
    ensures Survivors(hits, hits) != []
  {
    var s := DroppedIsCovered(hits, hits[0], MostKeywords(hits));
    assert s in Survivors(hits, hits);
  }

  // ----- The choice ----------------------------------------------------------------------------

  datatype Choice =
    | Unrecognised
    | Ambiguous(candidates: seq<string>)
    | MutationRequested(id: string)
    | Chosen(id: string, keywords: seq<string>)

  function Ids(hits: seq<Hit>, mutating: string -> bool, wanted: bool): (ids: seq<string>)
    ensures forall id :: id in ids <==> exists h :: h in hits && h.id == id && mutating(id) == wanted
  {
    if hits == [] then []
    else
      var rest := Ids(hits[1..], mutating, wanted);
      assert forall h :: h in hits <==> h == hits[0] || h in hits[1..];
      if mutating(hits[0].id) == wanted then [hits[0].id] + rest else rest
  }

  lemma {:induction false} IdsSplit(hits: seq<Hit>, mutating: string -> bool)
    ensures |Ids(hits, mutating, true)| + |Ids(hits, mutating, false)| == |hits|
  {
    if hits != [] {
      IdsSplit(hits[1..], mutating);
    }
  }

  method Filter(hits: seq<Hit>, mutating: string -> bool, wanted: bool) returns (ids: seq<string>)
    ensures ids == Ids(hits, mutating, wanted)
  {
    ids := [];
    for i := |hits| downto 0
      invariant ids == Ids(hits[i..], mutating, wanted)
    {
      assert hits[i..][1..] == hits[i + 1..];
      if mutating(hits[i].id) == wanted {
        ids := [hits[i].id] + ids;
      }
    }
    assert hits[0..] == hits;
  }

  method KeepSpecific(matched: seq<Hit>) returns (kept: seq<Hit>)
    ensures kept == Survivors(matched, matched)
  {
    kept := [];
    for i := |matched| downto 0
      invariant kept == Survivors(matched[i..], matched)
    {
      assert matched[i..][1..] == matched[i + 1..];
      if !Outdone(matched, matched[i]) {
        kept := [matched[i]] + kept;
      }
    }
    assert matched[0..] == matched;
  }

  /** The choice among the surviving operations. */
  ghost predicate Decides(kept: seq<Hit>, mutating: string -> bool, c: Choice) {
    var readOnly, mutations := Ids(kept, mutating, false), Ids(kept, mutating, true);
    match c
    case Unrecognised => false
    case Ambiguous(candidates) =>
      |candidates| >= 2 && candidates == if readOnly != [] then readOnly else mutations
    case MutationRequested(id) => readOnly == [] && mutations == [id]
    case Chosen(id, keywords) => readOnly == [id] && Hit(id, keywords) in kept
  }

  method Decide(kept: seq<Hit>, mutating: string -> bool) returns (c: Choice)
    requires kept != []
    ensures Decides(kept, mutating, c)
  {
    var mutations := Filter(kept, mutating, true);
    var readOnly := Filter(kept, mutating, false);
    IdsSplit(kept, mutating);
    if readOnly != [] {
      if |readOnly| > 1 {
        return Ambiguous(readOnly);
      }
      assert readOnly[0] in readOnly;
      var keywords := KeywordsOf(kept, readOnly[0]);
      return Chosen(readOnly[0], keywords);
    }
    if |mutations| == 1 {
      return MutationRequested(mutations[0]);
    }
    return Ambiguous(mutations);
  }

  /**
    The operation a request means. Ambiguity always names at least two
    operations; a single surviving read-only operation wins over any number of
    mutating ones; a mutation is reported only when it is all that survives.
   */
  method Choose(table: seq<Rule>, words: seq<string>, mutating: string -> bool) returns (c: Choice)
    ensures c.Unrecognised? <==> forall r :: r in table ==> FirstPresent(r.sets, words).None?
    ensures !c.Unrecognised? ==> Decides(Survivors(HitsOf(table, words), HitsOf(table, words)), mutating, c)
  {
    var matched := MatchRules(table, words);
    UnmatchedIffAbsent(table, words);
    if matched == [] {
      return Unrecognised;
    }
    SomeSurvive(matched);
    var kept := KeepSpecific(matched);
    c := Decide(kept, mutating);
  }

  lemma UnmatchedIffAbsent(table: seq<Rule>, words: seq<string>)
    ensures HitsOf(table, words) == [] <==> forall r :: r in table ==> FirstPresent(r.sets, words).None?
  {
    var hits := HitsOf(table, words);
    if hits != [] {
      MatchedIffPresent(table, words, hits[0].id);
      assert HasId(hits, hits[0].id);
    } else {
      forall r | r in table ensures FirstPresent(r.sets, words).None? {
        MatchedIffPresent(table, words, r.id);
        var k :| 0 <= k < |table| && table[k] == r;
        assert !HasId(hits, r.id);
      }
    }
  }

  method KeywordsOf(hits: seq<Hit>, id: string) returns (keywords: seq<string>)
    requires exists h :: h in hits && h.id == id
    ensures Hit(id, keywords) in hits
  {
    for i := 0 to |hits|
      invariant forall j :: 0 <= j < i ==> hits[j].id != id
    {
      if hits[i].id == id {
        return hits[i].keywords;
      }
    }
    assert false;
  }

  // ----- Mutations that go unmentioned --------------------------------------------------------

  predicate Mentions(c: Choice, id: string) {
    match c
    case Unrecognised => false
    case Ambiguous(candidates) => id in candidates
    case MutationRequested(named) => id == named
    case Chosen(chosen, _) => id == chosen
  }

  /** A surviving mutation goes unmentioned, each of them, exactly if a read-only operation survives beside it. */
  lemma MutationPassedOverIff(kept: seq<Hit>, mutating: string -> bool, c: Choice, id: string)
    requires Decides(kept, mutating, c) && id in Ids(kept, mutating, true)
    ensures !Mentions(c, id) <==> Ids(kept, mutating, false) != []
  {
    var readOnly := Ids(kept, mutating, false);
    assert id !in readOnly;
    assert c.Chosen? ==> c.id in readOnly;
  }

  /** "Deploy and verify" is planned as a verification, and the deployment is passed over. */
  lemma DeployIsPassedOver(mutating: string -> bool) returns (kept: seq<Hit>)
    requires mutating("deploy") && !mutating("verify")
    ensures var table := [Rule("deploy", [["deploy"]]), Rule("verify", [["verify"]])];
      var hits := HitsOf(table, ["deploy", "and", "verify"]);
      kept == Survivors(hits, hits)
    ensures Decides(kept, mutating, Chosen("verify", ["verify"])) && Ids(kept, mutating, true) == ["deploy"]
  {
    var words := ["deploy", "and", "verify"];
    assert words[0] == "deploy" && words[2] == "verify";
    TwoHits("deploy", "verify", words);
    kept := [Hit("deploy", ["deploy"]), Hit("verify", ["verify"])];
    TwoSurvive(kept[0], kept[1], mutating);
  }

  /** Two operations named by a word each. */
  lemma TwoHits(a: string, b: string, words: seq<string>)
    requires a != b && a in words && b in words
    ensures HitsOf([Rule(a, [[a]]), Rule(b, [[b]])], words) == [Hit(a, [a]), Hit(b, [b])]
  {
    var first, second := Rule(a, [[a]]), Rule(b, [[b]]);
    assert [first, second][..1] == [first] && [first][..0] == [];
    assert AllIn([a], words) && AllIn([b], words);
    assert HitsOf([first], words) == [Hit(a, [a])];
  }

  lemma TwoSurvive(a: Hit, b: Hit, mutating: string -> bool)
    requires |a.keywords| == |b.keywords| && mutating(a.id) && !mutating(b.id)
    ensures Survivors([a, b], [a, b]) == [a, b]
    ensures Ids([a, b], mutating, false) == [b.id] && Ids([a, b], mutating, true) == [a.id]
  {
    assert [a, b][1..] == [b] && [b][1..] == [];
    assert !Outdone([a, b], a) && !Outdone([a, b], b);
    assert Survivors([b], [a, b]) == [b];
    assert Ids([b], mutating, false) == [b.id] && Ids([b], mutating, true) == [];
  }
}
