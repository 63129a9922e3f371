/**
 * Extraction of a scene item's id from its CSS class list
 * (`getIdFromClassName`): the regular expression
 * `designcombo-scene-item id-([^ ]+)` applied to the class string.
 */
module SceneIds {
  import opened Wrappers

  /** The literal part of the pattern, in front of the captured id. */
  const Marker: string := "designcombo-scene-item id-"

  /** The pattern matches at position `i`: the marker, then at least one non-space character. */
  predicate MatchAt(s: string, i: nat)
  {
    MarkerAt(s, i) && i + |Marker| < |s| && s[i + |Marker|] != ' '
  }

  /** The marker occurs in `s` at position `i`. */
  predicate MarkerAt(s: string, i: nat)
  {
    i + |Marker| <= |s| && s[i..i + |Marker|] == Marker
  }

  /** The longest prefix of `s` without a space: what the greedy `[^ ]+` captures. */
  function NonSpaceRun(s: string): (r: string)
    ensures r <= s
    ensures ' ' !in r
    ensures r == s || s[|r|] == ' '
  {
    if s == [] || s[0] == ' ' then [] else [s[0]] + NonSpaceRun(s[1..])
  }

  /** The leftmost position at or after `from` where the pattern matches. */
  function LeftmostMatch(s: string, from: nat): (r: Option<nat>)
    decreases |s| - from
    ensures r.Some? ==> from <= r.value && MatchAt(s, r.value)
    ensures r.Some? ==> forall j: nat :: from <= j < r.value ==> !MatchAt(s, j)
    ensures r.None? ==> forall j: nat :: from <= j ==> !MatchAt(s, j)
  {
    if from + |Marker| >= |s| then None
    else if MatchAt(s, from) then Some(from)
    else LeftmostMatch(s, from + 1)
  }

  /**
   * The id in a class string: the maximal run of non-space characters after
   * the leftmost place where the marker is followed by a non-space character;
   * `""` for an empty input or when the pattern does not match.
   */
  function GetIdFromClassName(input: string): (id: string)
    ensures ' ' !in id
    ensures input == "" ==> id == ""
    ensures id != "" <==> exists i: nat :: MatchAt(input, i)
    ensures id != "" ==> exists i: nat ::
      && MatchAt(input, i)
      && (forall j: nat :: j < i ==> !MatchAt(input, j))
      && id == NonSpaceRun(input[i + |Marker|..])
  {
    if input == "" then ""
    else
      match LeftmostMatch(input, 0)
      case None => ""
      case Some(i) =>
        assert forall j: nat :: j < i ==> !MatchAt(input, j);
        NonSpaceRun(input[i + |Marker|..])
  }

  /** The marker has no border: no proper suffix of it is also a prefix of it. */
  lemma MarkerHasNoBorder(k: nat)
    requires 1 <= k < |Marker|
    ensures Marker[k..] != Marker[..|Marker| - k]
  {
    assert |Marker| == 26;
    if k == 24 {
      assert Marker[k..][1] == '-' && Marker[..|Marker| - k][1] == 'e';
    } else {
      assert Marker[k..][0] == Marker[k] && Marker[..|Marker| - k][0] == 'd';
      assert Marker[k] != 'd';
    }
  }

  /** A run of non-space characters followed by nothing or a space is captured whole. */
  lemma {:induction false} NonSpaceRunStopsAtSpace(id: string, rest: string)
    requires ' ' !in id
    requires rest == "" || rest[0] == ' '
    ensures NonSpaceRun(id + rest) == id
  {
    if id != [] {
      assert (id + rest)[1..] == id[1..] + rest;
      NonSpaceRunStopsAtSpace(id[1..], rest);
    }
  }

  /** The marker cannot occur in `prefix + Marker + t` before the inserted marker. */
  lemma NoMarkerBefore(prefix: string, t: string, j: nat)
    requires forall i: nat :: !MarkerAt(prefix, i)
    requires j < |prefix|
    ensures !MarkerAt(prefix + Marker + t, j)
  {
    var s := prefix + Marker + t;
    var p := |prefix|;
    if j + |Marker| <= p {
      assert s[j..j + |Marker|] == prefix[j..j + |Marker|];
      assert !MarkerAt(prefix, j);
    } else {
      var k := p - j;
      MarkerHasNoBorder(k);
      var w := s[j..j + |Marker|];
      assert w[k..] == s[p..j + |Marker|];
      assert s[p..p + |Marker|] == Marker;
      assert Marker[..|Marker| - k] == s[p..j + |Marker|];
      assert w[k..] != Marker[k..];
    }
  }

  /**
   * Round trip: the class string a scene item carries, `marker + id` followed by
   * nothing or by further space-separated classes, yields `id` back, whatever
   * precedes it as long as the marker does not already occur there.
   */
  lemma RoundTrip(prefix: string, id: string, rest: string)
    requires id != "" && ' ' !in id
    requires rest == "" || rest[0] == ' '
    requires forall j: nat :: !MarkerAt(prefix, j)
    ensures GetIdFromClassName(prefix + Marker + id + rest) == id
  {
    var s := prefix + Marker + (id + rest);
    assert s == prefix + Marker + id + rest;
    var p := |prefix|;
    assert s[p..p + |Marker|] == Marker;
    assert s[p + |Marker|] == id[0];
    assert MatchAt(s, p);
    forall j: nat | j < p ensures !MatchAt(s, j) {
      NoMarkerBefore(prefix, id + rest, j);
    }
    assert LeftmostMatch(s, 0) == Some(p);
    assert s[p + |Marker|..] == id + rest;
    NonSpaceRunStopsAtSpace(id, rest);
  }

  /** A marker followed by a space does not match; the pattern is found at the next marker instead. */
  lemma MarkerBeforeSpaceSkipped(id: string)
    requires id != "" && ' ' !in id
    ensures GetIdFromClassName(Marker + " " + Marker + id) == id
  {
    var s := Marker + " " + Marker + id;
    var p := |Marker| + 1;
    assert s[p..p + |Marker|] == Marker;
    assert s[p + |Marker|] == id[0];
    assert MatchAt(s, p);
    forall j: nat | j < p ensures !MatchAt(s, j) {
      if j == 0 {
        assert s[|Marker|] == ' ';
      } else if j < |Marker| {
        MarkerHasNoBorder(j);
        var w := s[j..j + |Marker|];
        assert s[..|Marker|] == Marker;
        assert w[..|Marker| - j] == s[j..|Marker|];
        assert s[j..|Marker|] == s[..|Marker|][j..];
      } else {
        assert s[j] == ' ' && Marker[0] == 'd';
      }
    }
    assert LeftmostMatch(s, 0) == Some(p);
    assert s[p + |Marker|..] == id + "";
    NonSpaceRunStopsAtSpace(id, "");
  }
}
