/** Extended filtering of language tags (section 3.3.2 of RFC 4647). */
module LangMatches {
  function LowerChar(c: char): char {
    if 'A' <= c <= 'Z' then c - 'A' + 'a' else c
  }

  function Lower(s: string): string {
    seq(|s|, i requires 0 <= i < |s| => LowerChar(s[i]))
  }

  /** Case-insensitive equality. The expression built from a wildcard is one that matches everything. */
  predicate MatchLangTag(left: string, right: string) {
    left == "*" || Lower(left) == Lower(right)
  }

  predicate IsWildCard(tag: string) { tag == "*" }

  function Split(s: string): (r: seq<string>)
    ensures |r| > 0
  {
    if s == "" then [""]
    else
      var rest := Split(s[1..]);
      if s[0] == '-' then [""] + rest else [[s[0]] + rest[0]] + rest[1..]
  }

  /** The loop of the algorithm, from the first subtags after the primary ones. */
  function Greedy(tags: seq<string>, ranges: seq<string>): bool
    decreases |ranges|, |tags|
  {
    if ranges == [] then true
    else if IsWildCard(ranges[0]) then Greedy(tags, ranges[1..])
    else if tags == [] then false
    else if MatchLangTag(ranges[0], tags[0]) then Greedy(tags[1..], ranges[1..])
    else |tags[0]| != 1 && Greedy(tags[1..], ranges)
  }

  predicate FirstMatches(langTags: seq<string>, rangeTags: seq<string>)
    requires |langTags| > 0 && |rangeTags| > 0
  {
    MatchLangTag(rangeTags[0], langTags[0]) || IsWildCard(langTags[0])
  }

  function Matches(tag: string, range: string): bool {
    FirstMatches(Split(tag), Split(range)) && Greedy(Split(tag)[1..], Split(range)[1..])
  }

  method LangMatches(tag: string, range: string) returns (r: bool)
    ensures r == Matches(tag, range)
  {
    var langTags := Split(tag);
    var rangeTags := Split(range);
    if !MatchLangTag(rangeTags[0], langTags[0]) && !IsWildCard(langTags[0]) { return false; }
    var lI, rI := 1, 1;
    while rI < |rangeTags|
      invariant 1 <= lI <= |langTags| && 1 <= rI <= |rangeTags|
      invariant Greedy(langTags[1..], rangeTags[1..]) == Greedy(langTags[lI..], rangeTags[rI..])
      decreases |rangeTags| - rI + |langTags| - lI
    {
      if IsWildCard(rangeTags[rI]) {
        rI := rI + 1;
        continue;
      }
      if lI == |langTags| { return false; }
      if MatchLangTag(rangeTags[rI], langTags[lI]) {
        lI := lI + 1;
        rI := rI + 1;
        continue;
      }
      if |langTags[lI]| == 1 { return false; }
      lI := lI + 1;
    }
    return true;
  }

  // ----- completeness -----

  function NonWild(ranges: seq<string>): seq<string> {
    if ranges == [] then []
    else (if IsWildCard(ranges[0]) then [] else [ranges[0]]) + NonWild(ranges[1..])
  }

  /** The needed subtags are found, in order, at the places `at`; no one-character subtag is skipped before the last. */
  ghost predicate Embeds(tags: seq<string>, needed: seq<string>, at: seq<nat>) {
    && |at| == |needed|
    && (forall i :: 0 <= i < |at| ==> at[i] < |tags| && MatchLangTag(needed[i], tags[at[i]]))
    && (forall i, j :: 0 <= i < j < |at| ==> at[i] < at[j])
    && (forall q :: 0 <= q < |tags| && |at| > 0 && q < at[|at| - 1] && q !in at ==> |tags[q]| != 1)
  }

  ghost predicate Embeddable(tags: seq<string>, needed: seq<string>) {
    exists at :: Embeds(tags, needed, at)
  }

  function Later(at: seq<nat>): seq<nat> { seq(|at|, i requires 0 <= i < |at| => at[i] + 1) }

  function Earlier(at: seq<nat>): seq<nat> { seq(|at|, i requires 0 <= i < |at| => if at[i] > 0 then at[i] - 1 else 0) }

  /** Moving all places by one, behind a subtag that may be skipped. */
  lemma SkipFirst(tags: seq<string>, needed: seq<string>, at: seq<nat>)
    requires tags != [] && needed != [] && |tags[0]| != 1 && Embeds(tags[1..], needed, at)
    ensures Embeds(tags, needed, Later(at))
  {
    var later := Later(at);
    forall q | 0 <= q < |tags| && q < later[|later| - 1] && q !in later
      ensures |tags[q]| != 1
    {
      if q > 0 {
        forall i | 0 <= i < |at| ensures at[i] != q - 1 { assert later[i] == at[i] + 1; }
        assert tags[1..][q - 1] == tags[q];
      }
    }
  }

  lemma TakeFirst(tags: seq<string>, needed: seq<string>, at: seq<nat>)
    requires tags != [] && needed != [] && MatchLangTag(needed[0], tags[0]) && Embeds(tags[1..], needed[1..], at)
    ensures Embeds(tags, needed, [0] + Later(at))
  {
    TakenPlaces(tags, needed, at);
    var later := [0] + Later(at);
    forall q | 0 <= q < |tags| && q < later[|later| - 1] && q !in later ensures |tags[q]| != 1 {
      TakenSkips(tags, needed, at, q);
    }
  }

  lemma TakenPlaces(tags: seq<string>, needed: seq<string>, at: seq<nat>)
    requires tags != [] && needed != [] && MatchLangTag(needed[0], tags[0]) && Embeds(tags[1..], needed[1..], at)
    ensures (var later := [0] + Later(at);
             && |later| == |needed|
             && (forall i :: 0 <= i < |later| ==> later[i] < |tags| && MatchLangTag(needed[i], tags[later[i]]))
             && (forall i, j :: 0 <= i < j < |later| ==> later[i] < later[j]))
  {
    var later := [0] + Later(at);
    forall i | 0 <= i < |later|
      ensures later[i] < |tags| && MatchLangTag(needed[i], tags[later[i]])
    {
      if i > 0 { assert at[i - 1] < |tags[1..]| && needed[1..][i - 1] == needed[i]; }
    }
  }

  lemma TakenSkips(tags: seq<string>, needed: seq<string>, at: seq<nat>, q: nat)
    requires tags != [] && needed != [] && Embeds(tags[1..], needed[1..], at) && q < |tags|
    requires var later := [0] + Later(at); q < later[|later| - 1] && q !in later
    ensures |tags[q]| != 1
  {
    var later := [0] + Later(at);
    assert later[0] == 0;
    forall i | 0 <= i < |at| ensures at[i] != q - 1 { assert later[i + 1] == at[i] + 1; }
    assert tags[1..][q - 1] == tags[q];
  }

  /** Without the first subtag, which no place is at. */
  lemma DropSkipped(tags: seq<string>, needed: seq<string>, at: seq<nat>)
    requires Embeds(tags, needed, at) && needed != [] && at[0] > 0
    ensures tags != [] && |tags[0]| != 1 && Embeds(tags[1..], needed, Earlier(at))
  {
    var earlier := Earlier(at);
    forall i | 0 <= i < |at| ensures at[i] > 0 { if i > 0 { assert at[0] < at[i]; } }
    assert 0 !in at;
    forall q | 0 <= q < |tags[1..]| && q < earlier[|earlier| - 1] && q !in earlier
      ensures |tags[1..][q]| != 1
    {
      forall i | 0 <= i < |at| ensures at[i] != q + 1 { assert earlier[i] == at[i] - 1; }
    }
  }

  /** If the first subtag matches the first needed one, an embedding can be changed to use it: subtags that match the
      same range subtag have the same length, so what is skipped instead may be skipped. */
  lemma UseFirst(tags: seq<string>, needed: seq<string>, at: seq<nat>)
    requires Embeds(tags, needed, at) && needed != [] && needed[0] != "*" && tags != []
             && MatchLangTag(needed[0], tags[0])
    ensures Embeds(tags[1..], needed[1..], Earlier(at[1..]))
  {
    UsedPlaces(tags, needed, at);
    var earlier := Earlier(at[1..]);
    forall q | 0 <= q < |tags[1..]| && |earlier| > 0 && q < earlier[|earlier| - 1] && q !in earlier
      ensures |tags[1..][q]| != 1
    {
      forall i | 0 < i < |at| ensures at[i] != q + 1 { assert earlier[i - 1] == at[i] - 1; }
      MaySkip(tags, needed, at, q + 1);
    }
  }

  lemma UsedPlaces(tags: seq<string>, needed: seq<string>, at: seq<nat>)
    requires Embeds(tags, needed, at) && needed != [] && tags != []
    ensures (var earlier := Earlier(at[1..]);
             && |earlier| == |at| - 1 && (forall i :: 0 < i < |at| ==> at[i] > 0 && earlier[i - 1] == at[i] - 1)
             && (forall i :: 0 <= i < |earlier| ==>
                   earlier[i] < |tags[1..]| && MatchLangTag(needed[1..][i], tags[1..][earlier[i]]))
             && (forall i, j :: 0 <= i < j < |earlier| ==> earlier[i] < earlier[j]))
  {
    forall i | 0 < i < |at| ensures at[i] > 0 { assert at[0] < at[i]; }
    forall i | 0 <= i < |at| - 1 ensures at[1..][i] == at[i + 1] && needed[1..][i] == needed[i + 1] {}
  }

  lemma MaySkip(tags: seq<string>, needed: seq<string>, at: seq<nat>, q: nat)
    requires Embeds(tags, needed, at) && needed != [] && needed[0] != "*" && tags != []
             && MatchLangTag(needed[0], tags[0])
    requires 0 < q < at[|at| - 1] && forall i :: 0 < i < |at| ==> at[i] != q
    ensures |tags[q]| != 1
  {
    if q == at[0] {
      forall i | 0 <= i < |at| ensures at[i] != 0 { if i > 0 { assert at[0] < at[i]; } }
      SameLength(needed[0], tags[0], tags[at[0]]);
    } else {
      assert q !in at;
    }
  }

  lemma SameLength(left: string, a: string, b: string)
    requires left != "*" && MatchLangTag(left, a) && MatchLangTag(left, b)
    ensures |a| == |b|
  {
    assert |Lower(a)| == |a| && |Lower(b)| == |b|;
  }

  /** Taking the earliest match finds an embedding whenever there is one. */
  lemma {:induction false} GreedyComplete(tags: seq<string>, ranges: seq<string>)
    ensures Greedy(tags, ranges) <==> Embeddable(tags, NonWild(ranges))
    decreases |ranges|, |tags|
  {
    if ranges == [] {
      assert Embeds(tags, [], []);
    } else if IsWildCard(ranges[0]) {
      GreedyComplete(tags, ranges[1..]);
      assert NonWild(ranges) == NonWild(ranges[1..]);
    } else {
      var needed := NonWild(ranges);
      assert needed[0] == ranges[0] && needed[1..] == NonWild(ranges[1..]);
      if tags == [] {
        forall at ensures !Embeds(tags, needed, at) {}
      } else if MatchLangTag(ranges[0], tags[0]) {
        GreedyComplete(tags[1..], ranges[1..]);
        if at :| Embeds(tags[1..], needed[1..], at) { TakeFirst(tags, needed, at); }
        if at :| Embeds(tags, needed, at) { UseFirst(tags, needed, at); }
      } else {
        GreedyComplete(tags[1..], ranges);
        if at :| Embeds(tags, needed, at) { DropSkipped(tags, needed, at); }
        if |tags[0]| != 1 {
          if at :| Embeds(tags[1..], needed, at) { SkipFirst(tags, needed, at); }
        }
      }
    }
  }

  // ----- subtags and letters in plain terms -----

  function Joined(pieces: seq<string>): string
    requires pieces != []
  {
    if |pieces| == 1 then pieces[0] else pieces[0] + "-" + Joined(pieces[1..])
  }

  /** The subtags of `s`: joined with hyphens they are `s`, and none of them contains a hyphen. */
  ghost predicate Pieces(s: string, pieces: seq<string>) {
    pieces != [] && Joined(pieces) == s && forall i :: 0 <= i < |pieces| ==> '-' !in pieces[i]
  }

  lemma Regroup(c: char, a: string, b: string)
    ensures ([c] + a) + "-" + b == [c] + (a + "-" + b)
  {
  }

  lemma JoinedFirst(pieces: seq<string>, c: char)
    requires pieces != []
    ensures Joined([[c] + pieces[0]] + pieces[1..]) == [c] + Joined(pieces)
  {
    var longer := [[c] + pieces[0]] + pieces[1..];
    assert longer[1..] == pieces[1..];
    if |pieces| > 1 {
      Regroup(c, pieces[0], Joined(pieces[1..]));
    }
  }

  lemma {:induction false} SplitPieces(s: string)
    ensures Pieces(s, Split(s))
  {
    if s != "" {
      var rest := Split(s[1..]);
      SplitPieces(s[1..]);
      if s[0] == '-' {
        assert ([""] + rest)[1..] == rest;
        assert Joined([""] + rest) == "" + "-" + s[1..] == s;
      } else {
        JoinedFirst(rest, s[0]);
        assert [s[0]] + s[1..] == s;
      }
    }
  }

  lemma {:induction false} PiecesUnique(s: string, pieces: seq<string>)
    requires Pieces(s, pieces)
    ensures pieces == Split(s)
  {
    if s == "" {
      assert |pieces| == 1;
    } else if pieces[0] == "" {
      assert s == "" + "-" + Joined(pieces[1..]);
      assert s[1..] == Joined(pieces[1..]);
      PiecesUnique(s[1..], pieces[1..]);
      assert pieces == [""] + pieces[1..];
    } else {
      var c, shorter := pieces[0][0], [pieces[0][1..]] + pieces[1..];
      assert [c] + shorter[0] == pieces[0] && shorter[1..] == pieces[1..];
      assert [[c] + shorter[0]] + shorter[1..] == pieces;
      JoinedFirst(shorter, c);
      assert s == [c] + Joined(shorter) && s[1..] == Joined(shorter);
      assert c in pieces[0] && c != '-';
      forall i | 0 <= i < |shorter| ensures '-' !in shorter[i] {
        if i > 0 { assert shorter[i] == pieces[i]; } else { assert forall x :: x in shorter[0] ==> x in pieces[0]; }
      }
      PiecesUnique(s[1..], shorter);
    }
  }

  /** Splitting yields the subtags, which there is only one way to choose. */
  lemma SplitExactly(s: string, pieces: seq<string>)
    ensures Pieces(s, pieces) <==> pieces == Split(s)
  {
    SplitPieces(s);
    if Pieces(s, pieces) { PiecesUnique(s, pieces); }
  }

  const UPPER := "ABCDEFGHIJKLMNOPQRSTUVWXYZ"
  const LOWER := "abcdefghijklmnopqrstuvwxyz"

  ghost predicate SameLetter(a: char, b: char) {
    a == b || exists k :: 0 <= k < 26 && {a, b} == {UPPER[k], LOWER[k]}
  }

  ghost predicate SameText(a: string, b: string) {
    |a| == |b| && forall i :: 0 <= i < |a| ==> SameLetter(a[i], b[i])
  }

  lemma Alphabet(k: nat)
    requires k < 26
    ensures UPPER[k] == 'A' + k as char && LOWER[k] == 'a' + k as char
  {
  }

  lemma LettersExactly(a: char, b: char)
    ensures LowerChar(a) == LowerChar(b) <==> SameLetter(a, b)
  {
    forall k: nat | k < 26 ensures UPPER[k] == 'A' + k as char && LOWER[k] == 'a' + k as char { Alphabet(k); }
    if a != b && LowerChar(a) == LowerChar(b) {
      var u := if 'A' <= a <= 'Z' then a else b;
      var k := (u - 'A') as int;
      assert {a, b} == {UPPER[k], LOWER[k]};
    }
  }

  lemma TextsExactly(a: string, b: string)
    ensures Lower(a) == Lower(b) <==> SameText(a, b)
  {
    forall i | 0 <= i < |a| && i < |b| ensures Lower(a)[i] == Lower(b)[i] <==> SameLetter(a[i], b[i]) {
      LettersExactly(a[i], b[i]);
    }
    if Lower(a) == Lower(b) { assert |a| == |Lower(a)| == |b|; }
    if SameText(a, b) { assert Lower(a) == Lower(b); }
  }

  function Wanted(ranges: seq<string>): seq<string> {
    if ranges == [] then [] else (if ranges[0] != "*" then [ranges[0]] else []) + Wanted(ranges[1..])
  }

  /** The wanted subtags are found, in order, at the places `at`; no one-character subtag is skipped before the last. */
  ghost predicate FoundAt(tags: seq<string>, wanted: seq<string>, at: seq<nat>) {
    && |at| == |wanted|
    && (forall i :: 0 <= i < |at| ==> at[i] < |tags| && SameText(wanted[i], tags[at[i]]))
    && (forall i, j :: 0 <= i < j < |at| ==> at[i] < at[j])
    && (forall q :: 0 <= q < |tags| && |at| > 0 && q < at[|at| - 1] && q !in at ==> |tags[q]| != 1)
  }

  ghost predicate Found(tags: seq<string>, wanted: seq<string>) { exists at :: FoundAt(tags, wanted, at) }

  lemma {:induction false} WantedAre(ranges: seq<string>)
    ensures NonWild(ranges) == Wanted(ranges) && "*" !in Wanted(ranges)
  {
    if ranges != [] { WantedAre(ranges[1..]); }
  }

  lemma EmbedsFound(tags: seq<string>, wanted: seq<string>)
    requires "*" !in wanted
    ensures Embeddable(tags, wanted) <==> Found(tags, wanted)
  {
    forall at ensures Embeds(tags, wanted, at) <==> FoundAt(tags, wanted, at) {
      forall i | 0 <= i < |at| && i < |wanted| && at[i] < |tags|
        ensures MatchLangTag(wanted[i], tags[at[i]]) <==> SameText(wanted[i], tags[at[i]])
      {
        assert wanted[i] in wanted;
        TextsExactly(wanted[i], tags[at[i]]);
      }
    }
    if at :| Embeds(tags, wanted, at) { assert FoundAt(tags, wanted, at); }
    if at :| FoundAt(tags, wanted, at) { assert Embeds(tags, wanted, at); }
  }

  // ----- the whole function -----

  /** The function in terms of the subtags `t` of the tag and `r` of the range. */
  lemma MatchesExactly(tag: string, range: string, t: seq<string>, r: seq<string>)
    requires Pieces(tag, t) && Pieces(range, r)
    ensures Matches(tag, range) <==>
              (r[0] == "*" || t[0] == "*" || SameText(r[0], t[0])) && Found(t[1..], Wanted(r[1..]))
  {
    SplitExactly(tag, t);
    SplitExactly(range, r);
    TextsExactly(r[0], t[0]);
    GreedyComplete(t[1..], r[1..]);
    WantedAre(r[1..]);
    EmbedsFound(t[1..], Wanted(r[1..]));
  }

  /** A first range subtag is to match if it is a wildcard or equal; the code also accepts a tag that begins with `*`.
      */
  lemma FirstSubtagExactly(langTags: seq<string>, rangeTags: seq<string>)
    requires |langTags| > 0 && |rangeTags| > 0
    ensures (FirstMatches(langTags, rangeTags) <==> rangeTags[0] == "*" || Lower(rangeTags[0]) == Lower(langTags[0]))
       <==> langTags[0] != "*" || rangeTags[0] == "*"
  {
    if Lower(rangeTags[0]) == "*" && |rangeTags[0]| == 1 {
      assert Lower(rangeTags[0])[0] == LowerChar(rangeTags[0][0]);
    }
  }

  /** What the function is to decide: the range `*` is for every tag but the empty string (section 17.4.3.6 of SPARQL
      1.1 Query Language), and any other range is for the tags that extended filtering selects. */
  ghost predicate Intended(tag: string, range: string, t: seq<string>, r: seq<string>)
    requires t != [] && r != []
  {
    if range == "*" then tag != ""
    else (r[0] == "*" || SameText(r[0], t[0])) && Found(t[1..], Wanted(r[1..]))
  }

  /** The code lets the range `*` match the empty string too, and lets a tag that begins with the subtag `*` match
      ranges that begin with another one; in all other cases it is right. */
  lemma AsIntendedExactly(tag: string, range: string, t: seq<string>, r: seq<string>)
    requires Pieces(tag, t) && Pieces(range, r)
    ensures (Matches(tag, range) <==> Intended(tag, range, t, r))
       <==> if range == "*" then tag != ""
            else t[0] != "*" || r[0] == "*" || !Found(t[1..], Wanted(r[1..]))
  {
    MatchesExactly(tag, range, t, r);
    if range == "*" { AnyTag(tag); }
    if t[0] == "*" && SameText(r[0], t[0]) { LettersExactly(r[0][0], '*'); }
  }

  lemma AnyTag(tag: string)
    ensures Matches(tag, "*")
  {
    assert "*"[1..] == "" && Split("") == [""] && [""][1..] == [];
    assert ['*'] + "" == "*" && ["*"] + [] == ["*"];
    assert Split("*") == ["*"];
  }
}
