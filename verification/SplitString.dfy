/** Cutting a string at every occurrence of a delimiter, from the left. */
module SplitString {
  import opened Common

  predicate OccursAt(s: string, d: string, i: nat) {
    i + |d| <= |s| && s[i..i + |d|] == d
  }

  predicate Contains(s: string, d: string) {
    exists i | 0 <= i <= |s| :: OccursAt(s, d, i)
  }

  /** The first occurrence at or after i. */
  function Find(s: string, d: string, i: nat): (r: Option<nat>)
    ensures r.Some? ==> i <= r.value && OccursAt(s, d, r.value) && forall k | i <= k < r.value :: !OccursAt(s, d, k)
    ensures r.None? ==> forall k | i <= k <= |s| :: !OccursAt(s, d, k)
    decreases |s| - i
  {
    if i > |s| then None
    else if OccursAt(s, d, i) then Some(i)
    else Find(s, d, i + 1)
  }

  /** The pieces from the start position on. */
  function Pieces(s: string, d: string, start: nat): (r: seq<string>)
    requires d != [] && start <= |s|
    ensures r != []
    decreases |s| - start
  {
    match Find(s, d, start)
    case None => [s[start..]]
    case Some(end) => [s[start..end]] + Pieces(s, d, end + |d|)
  }

  lemma PiecesNext(s: string, d: string, start: nat, at: nat)
    requires d != [] && start <= |s| && Find(s, d, start) == Some(at)
    ensures at + |d| <= |s| && Pieces(s, d, start) == [s[start..at]] + Pieces(s, d, at + |d|)
  {
  }

  /** With an empty delimiter the loop of the original never ends. */
  method Split(s: string, d: string) returns (res: seq<string>)
    requires d != []
    ensures res == Pieces(s, d, 0)
  {
    res := [];
    var end: int := -|d|;
    var more := true;
    ghost var goal := Pieces(s, d, 0);
    while more
      invariant more ==> 0 <= end + |d| <= |s| && res + Pieces(s, d, end + |d|) == goal
      invariant !more ==> res == goal
      decreases more, |s| - end
    {
      var start: nat := end + |d|;
      match Find(s, d, start)
      case Some(at) =>
        end := at;
        PiecesNext(s, d, start, at);
        Regroup(res, [s[start..at]], Pieces(s, d, at + |d|));
        res := res + [s[start..at]];
      case None =>
        more := false;
        res := res + [s[start..]];
    }
  }

  function Join(ps: seq<string>, d: string): string {
    if ps == [] then "" else if |ps| == 1 then ps[0] else ps[0] + d + Join(ps[1..], d)
  }

  lemma Cut(s: string, i: nat, j: nat)
    requires i <= j <= |s|
    ensures s[i..] == s[i..j] + s[j..]
  {
  }

  lemma JoinMore(piece: string, rest: seq<string>, d: string)
    requires rest != []
    ensures Join([piece] + rest, d) == piece + (d + Join(rest, d))
  {
    assert ([piece] + rest)[1..] == rest;
    assert piece + d + Join(rest, d) == piece + (d + Join(rest, d));
  }

  /** Joining the pieces gives the string back. */
  lemma {:induction false} JoinRestores(s: string, d: string, start: nat)
    requires d != [] && start <= |s|
    ensures Join(Pieces(s, d, start), d) == s[start..]
    decreases |s| - start
  {
    var at := Find(s, d, start);
    if at.Some? {
      var end, next := at.value, at.value + |d|;
      JoinRestores(s, d, next);
      JoinMore(s[start..end], Pieces(s, d, next), d);
      Cut(s, end, next);
      Cut(s, start, end);
    }
  }

  lemma OccursInside(s: string, d: string, start: nat, end: nat, k: nat)
    requires start <= end <= |s| && OccursAt(s[start..end], d, k)
    ensures OccursAt(s, d, start + k) && start + k + |d| <= end
  {
    SliceOfSlice(s, start, end, k, k + |d|);
  }

  lemma OccursOutside(s: string, d: string, start: nat, end: nat, k: nat)
    requires start <= k && k + |d| <= end <= |s| && OccursAt(s, d, k)
    ensures Contains(s[start..end], d)
  {
    SliceOfSlice(s, start, end, k - start, k - start + |d|);
    assert OccursAt(s[start..end], d, k - start);
  }

  /** No piece contains the delimiter. */
  lemma {:induction false} PiecesAreClean(s: string, d: string, start: nat)
    requires d != [] && start <= |s|
    ensures forall i | 0 <= i < |Pieces(s, d, start)| :: !Contains(Pieces(s, d, start)[i], d)
    decreases |s| - start
  {
    var at := Find(s, d, start);
    var end := if at.Some? then at.value else |s|;
    var first := s[start..end];
    forall k | 0 <= k <= |first| ensures !OccursAt(first, d, k) {
      if OccursAt(first, d, k) {
        OccursInside(s, d, start, end, k);
      }
    }
    if at.Some? {
      PiecesAreClean(s, d, end + |d|);
    } else {
      assert first == s[start..];
    }
  }

  /** The delimiter behind the piece is the first in both together, even where occurrences overlap. */
  predicate EndsLeftmost(piece: string, d: string) {
    forall k | 0 <= k < |piece| :: !OccursAt(piece + d, d, k)
  }

  lemma FirstPieceIsLeftmost(s: string, d: string, start: nat, end: nat)
    requires d != [] && start <= |s| && Find(s, d, start) == Some(end)
    ensures EndsLeftmost(s[start..end], d)
  {
    assert s[start..end + |d|] == s[start..end] + d;
    forall k | 0 <= k < end - start ensures !OccursAt(s[start..end] + d, d, k) {
      if OccursAt(s[start..end + |d|], d, k) {
        OccursInside(s, d, start, end + |d|, k);
      }
    }
  }

  ghost predicate AllButLastLeftmost(ps: seq<string>, d: string) {
    forall i | 0 <= i < |ps| - 1 :: EndsLeftmost(ps[i], d)
  }

  lemma OneMoreLeftmost(first: string, rest: seq<string>, d: string)
    requires EndsLeftmost(first, d) && AllButLastLeftmost(rest, d)
    ensures AllButLastLeftmost([first] + rest, d)
  {
  }

  /** Each piece but the last ends at the first occurrence of the delimiter. */
  lemma {:induction false} PiecesAreLeftmost(s: string, d: string, start: nat, ps: seq<string>)
    requires d != [] && start <= |s| && ps == Pieces(s, d, start)
    ensures AllButLastLeftmost(ps, d)
    decreases |s| - start
  {
    var at := Find(s, d, start);
    if at.Some? {
      PiecesNext(s, d, start, at.value);
      var first, rest := s[start..at.value], Pieces(s, d, at.value + |d|);
      PiecesAreLeftmost(s, d, at.value + |d|, rest);
      FirstPieceIsLeftmost(s, d, start, at.value);
      OneMoreLeftmost(first, rest, d);
    }
  }

  // ---------------------------------------------------------------- the other way round

  lemma NotInside(s: string, d: string, start: nat, end: nat)
    requires start <= end <= |s| && |d| == 1 && !Contains(s[start..end], d)
    ensures forall k | start <= k < end :: !OccursAt(s, d, k)
  {
    forall k | start <= k < end && OccursAt(s, d, k) ensures false {
      OccursOutside(s, d, start, end, k);
    }
  }

  lemma LastPiece(s: string, start: nat, d: string)
    requires |d| == 1 && start <= |s| && !Contains(s[start..], d)
    ensures Pieces(s, d, start) == [s[start..]]
  {
    assert s[start..|s|] == s[start..];
    NotInside(s, d, start, |s|);
  }

  lemma FindIs(s: string, start: nat, end: nat, d: string)
    requires start <= end && |d| == 1 && OccursAt(s, d, end) && !Contains(s[start..end], d)
    ensures Find(s, d, start) == Some(end)
  {
    NotInside(s, d, start, end);
  }

  lemma FirstPiece(s: string, start: nat, end: nat, d: string)
    requires start <= end && |d| == 1 && OccursAt(s, d, end) && !Contains(s[start..end], d)
    ensures Pieces(s, d, start) == [s[start..end]] + Pieces(s, d, end + |d|)
  {
    FindIs(s, start, end, d);
    PiecesNext(s, d, start, end);
  }

  lemma Around(s: string, start: nat, first: string, d: string, rest: string)
    requires |d| == 1 && start <= |s| && s[start..] == first + d + rest
    ensures var end := start + |first|;
            end + |d| <= |s| && s[start..end] == first && OccursAt(s, d, end) && s[end + |d|..] == rest
  {
    var tail, n := first + d + rest, |first|;
    assert tail[..n] == first && tail[n] == d[0] && tail[n + 1..] == rest;
    assert s[start..start + n] == tail[..n] && s[start + n] == tail[n] && s[start + n + 1..] == tail[n + 1..];
  }

  lemma {:induction false} SplitsJoined(s: string, start: nat, ps: seq<string>, d: string)
    requires |d| == 1 && ps != [] && forall i | 0 <= i < |ps| :: !Contains(ps[i], d)
    requires start <= |s| && s[start..] == Join(ps, d)
    ensures Pieces(s, d, start) == ps
    decreases |ps|
  {
    var first, rest := ps[0], ps[1..];
    assert !Contains(first, d);
    if rest == [] {
      LastPiece(s, start, d);
    } else {
      var end := start + |first|;
      Around(s, start, first, d, Join(rest, d));
      FirstPiece(s, start, end, d);
      SplitsJoined(s, end + |d|, rest, d);
    }
  }

  /** For a one-character delimiter splitting undoes joining exactly on non-empty lists of pieces that do
      not contain it. */
  lemma SplitsJoinedExactly(ps: seq<string>, d: string)
    requires |d| == 1
    ensures Pieces(Join(ps, d), d, 0) == ps <==> ps != [] && forall i | 0 <= i < |ps| :: !Contains(ps[i], d)
  {
    PiecesAreClean(Join(ps, d), d, 0);
    if ps != [] && forall i | 0 <= i < |ps| :: !Contains(ps[i], d) {
      SplitsJoined(Join(ps, d), 0, ps, d);
    }
  }
}
