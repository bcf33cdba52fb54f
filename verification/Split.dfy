/** `utl::split` of src/lib/utils.cpp (lines 194-211). */
module Split {

  ghost predicate OccursAt<T>(s: seq<T>, sep: seq<T>, i: int) {
    0 <= i && i + |sep| <= |s| && s[i..i + |sep|] == sep
  }

  ghost predicate Free<T>(s: seq<T>, sep: seq<T>) {
    forall i :: !OccursAt(s, sep, i)
  }

  ghost predicate AllFree<T>(pieces: seq<seq<T>>, sep: seq<T>) {
    forall k :: 0 <= k < |pieces| ==> Free(pieces[k], sep)
  }

  function Join<T>(pieces: seq<seq<T>>, sep: seq<T>): seq<T>
    requires pieces != []
    decreases |pieces|
  {
    if |pieces| == 1 then pieces[0] else pieces[0] + sep + Join(pieces[1..], sep)
  }

  /** `std::string::find(separator, start)`; |s| + 1 stands for npos. */
  method Find<T(==)>(s: seq<T>, sep: seq<T>, start: nat) returns (at: nat)
    requires start <= |s|
    ensures at <= |s| ==> start <= at && OccursAt(s, sep, at)
    ensures at == |s| + 1 || at <= |s|
    ensures forall i :: start <= i < at ==> !OccursAt(s, sep, i)
  {
    at := start;
    while at + |sep| <= |s|
      invariant start <= at <= |s| + 1
      invariant forall i :: start <= i < at ==> !OccursAt(s, sep, i)
    {
      if s[at..at + |sep|] == sep {
        return;
      }
      at := at + 1;
    }
    at := |s| + 1;
  }

  /** The loop of `split`.  With an empty separator the search always succeeds where it starts and the
      program does not end, so the separator has at least one character. */
  method SplitBy<T(==)>(s: seq<T>, sep: seq<T>) returns (pieces: seq<seq<T>>)
    requires sep != []
    ensures pieces != [] && AllFree(pieces, sep)
    ensures Join(pieces, sep) == s
    ensures pieces == SplitSpec(s, sep)
  {
    hide SplitSpec, Join, AllFree, Free;
    pieces := [];
    var start := 0;
    var end := Find(s, sep, start);
    assert s[start..] == s && [] + SplitSpec(s, sep) == SplitSpec(s, sep);
    while end <= |s|
      invariant start <= |s|
      invariant end <= |s| ==> start <= end && OccursAt(s, sep, end)
      invariant end == |s| + 1 || end <= |s|
      invariant forall i :: start <= i < end ==> !OccursAt(s, sep, i)
      invariant SplitSpec(s, sep) == pieces + SplitSpec(s[start..], sep)
      decreases |s| - start
    {
      SplitStep(s, sep, start, end);
      assert pieces + ([s[start..end]] + SplitSpec(s[end + |sep|..], sep))
          == (pieces + [s[start..end]]) + SplitSpec(s[end + |sep|..], sep);
      pieces := pieces + [s[start..end]];
      start := end + |sep|;
      end := Find(s, sep, start);
    }
    TailFree(s, sep, start);
    NoneIs(s[start..], sep);
    pieces := pieces + [s[start..]];
    SplitSpecOk(s, sep);
  }

  // ---------------------------------------------------------------- the specification

  ghost predicate IsFirst<T>(s: seq<T>, sep: seq<T>, at: int) {
    OccursAt(s, sep, at) && forall i :: i < at ==> !OccursAt(s, sep, i)
  }

  /** Cutting at the first separator, then going on behind it. */
  ghost function SplitSpec<T>(s: seq<T>, sep: seq<T>): (r: seq<seq<T>>)
    requires sep != []
    ensures r != []
    decreases |s|
  {
    if exists at :: IsFirst(s, sep, at) then
      var at :| IsFirst(s, sep, at); [s[..at]] + SplitSpec(s[at + |sep|..], sep)
    else [s]
  }

  lemma FirstIs<T>(s: seq<T>, sep: seq<T>, at: nat)
    requires sep != [] && IsFirst(s, sep, at)
    ensures SplitSpec(s, sep) == [s[..at]] + SplitSpec(s[at + |sep|..], sep)
  {
  }

  lemma NoneIs<T>(s: seq<T>, sep: seq<T>)
    requires sep != [] && Free(s, sep)
    ensures SplitSpec(s, sep) == [s]
  {
  }

  /** Occurrences in a tail are the occurrences behind its start. */
  lemma TailOccurs<T>(s: seq<T>, sep: seq<T>, start: nat, i: int)
    requires start <= |s|
    ensures OccursAt(s[start..], sep, i) <==> i >= 0 && OccursAt(s, sep, start + i)
  {
    if 0 <= i && start + i + |sep| <= |s| {
      assert s[start..][i..i + |sep|] == s[start + i..start + i + |sep|];
    }
  }

  lemma TailFirst<T>(s: seq<T>, sep: seq<T>, start: nat, at: nat)
    requires start <= at && OccursAt(s, sep, at) && forall i :: start <= i < at ==> !OccursAt(s, sep, i)
    ensures IsFirst(s[start..], sep, at - start)
  {
    forall i | i <= at - start
      ensures OccursAt(s[start..], sep, i) <==> i == at - start
    {
      TailOccurs(s, sep, start, i);
    }
  }

  lemma TailFree<T>(s: seq<T>, sep: seq<T>, start: nat)
    requires start <= |s| && forall i :: start <= i <= |s| ==> !OccursAt(s, sep, i)
    ensures Free(s[start..], sep)
  {
    forall i
      ensures !OccursAt(s[start..], sep, i)
    {
      TailOccurs(s, sep, start, i);
    }
  }

  lemma HeadFree<T>(s: seq<T>, sep: seq<T>, at: int)
    requires sep != [] && IsFirst(s, sep, at)
    ensures Free(s[..at], sep)
  {
    forall i
      ensures !OccursAt(s[..at], sep, i)
    {
      HeadOccurs(s, sep, at, i);
    }
  }

  lemma HeadOccurs<T>(s: seq<T>, sep: seq<T>, at: nat, i: int)
    requires sep != [] && at <= |s|
    ensures OccursAt(s[..at], sep, i) ==> OccursAt(s, sep, i) && i < at
  {
    if OccursAt(s[..at], sep, i) {
      assert s[..at][i..i + |sep|] == s[i..i + |sep|];
    }
  }

  lemma SplitStep<T>(s: seq<T>, sep: seq<T>, start: nat, end: nat)
    requires sep != [] && start <= end && OccursAt(s, sep, end)
    requires forall i :: start <= i < end ==> !OccursAt(s, sep, i)
    ensures SplitSpec(s[start..], sep) == [s[start..end]] + SplitSpec(s[end + |sep|..], sep)
  {
    var tail, at, rest := s[start..], end - start, s[end + |sep|..];
    TailFirst(s, sep, start, end);
    TailSlices(s, start, end, end + |sep|);
    assert tail[..at] == s[start..end] && tail[at + |sep|..] == rest;
    hide *;
    FirstIs(tail, sep, at);
  }

  lemma TailSlices<T>(s: seq<T>, start: nat, mid: nat, end: nat)
    requires start <= mid <= end <= |s|
    ensures s[start..][..mid - start] == s[start..mid] && s[start..][end - start..] == s[end..]
  {
  }

  lemma JoinCons<T>(p: seq<T>, pieces: seq<seq<T>>, sep: seq<T>)
    requires pieces != []
    ensures Join([p] + pieces, sep) == p + sep + Join(pieces, sep)
    ensures Free(p, sep) && AllFree(pieces, sep) ==> AllFree([p] + pieces, sep)
  {
    hide Free;
    assert ([p] + pieces)[1..] == pieces;
  }

  lemma CutOk<T>(s: seq<T>, sep: seq<T>, at: nat, rest: seq<T>)
    requires sep != [] && IsFirst(s, sep, at) && rest == s[at + |sep|..]
    requires AllFree(SplitSpec(rest, sep), sep) && Join(SplitSpec(rest, sep), sep) == rest
    ensures AllFree(SplitSpec(s, sep), sep) && Join(SplitSpec(s, sep), sep) == s
  {
    FirstIs(s, sep, at);
    HeadFree(s, sep, at);
    Cut(s, sep, at);
    assert at + |sep| <= |s|;
    hide *;
    JoinCons(s[..at], SplitSpec(rest, sep), sep);
  }

  lemma Cut<T>(s: seq<T>, sep: seq<T>, at: nat)
    requires OccursAt(s, sep, at)
    ensures s == s[..at] + sep + s[at + |sep|..]
  {
    assert s == s[..at] + s[at..at + |sep|] + s[at + |sep|..];
  }

  /** No piece contains the separator and joining the pieces gives back the input. */
  lemma {:induction false} SplitSpecOk<T>(s: seq<T>, sep: seq<T>)
    requires sep != []
    ensures AllFree(SplitSpec(s, sep), sep)
    ensures Join(SplitSpec(s, sep), sep) == s
    decreases |s|
  {
    if at :| IsFirst(s, sep, at) {
      var rest := s[at + |sep|..];
      SplitSpecOk(rest, sep);
      CutOk(s, sep, at, rest);
    } else {
      FreeOfFirst(s, sep, |s|);
      NoneIs(s, sep);
    }
  }

  /** Without a first occurrence there is none. */
  lemma {:induction false} FreeOfFirst<T>(s: seq<T>, sep: seq<T>, n: nat)
    requires sep != [] && forall at :: !IsFirst(s, sep, at)
    ensures forall i :: i < n ==> !OccursAt(s, sep, i)
    ensures n == |s| ==> Free(s, sep)
    decreases n
  {
    if n > 0 {
      FreeOfFirst(s, sep, n - 1);
      assert !IsFirst(s, sep, n - 1);
    }
  }

  // ---------------------------------------------------------------- splitting what was joined

  /** A proper part of the separator both begins and ends it. */
  ghost predicate Bordered<T>(sep: seq<T>) {
    exists b :: IsBorder(sep, b)
  }

  ghost predicate IsBorder<T>(sep: seq<T>, b: int) {
    0 < b < |sep| && sep[..b] == sep[|sep| - b..]
  }

  lemma OverlapIsBorder<T>(s: seq<T>, sep: seq<T>, i: int, q: int)
    requires OccursAt(s, sep, i) && OccursAt(s, sep, q) && i < q < i + |sep|
    ensures Bordered(sep)
  {
    var b := i + |sep| - q;
    assert sep[|sep| - b..] == s[i..i + |sep|][|sep| - b..] == s[q..q + b];
    assert sep[..b] == s[q..q + |sep|][..b] == s[q..q + b];
    assert IsBorder(sep, b);
  }

  lemma FirstIsAfterPiece<T>(p: seq<T>, sep: seq<T>, rest: seq<T>)
    requires sep != [] && Free(p, sep) && !Bordered(sep)
    ensures IsFirst(p + sep + rest, sep, |p|)
  {
    var s := p + sep + rest;
    assert OccursAt(s, sep, |p|);
    forall i | i < |p|
      ensures !OccursAt(s, sep, i)
    {
      if OccursAt(s, sep, i) && i + |sep| <= |p| {
        assert s[i..i + |sep|] == p[i..i + |sep|];
        assert OccursAt(p, sep, i);
      } else if OccursAt(s, sep, i) {
        OverlapIsBorder(s, sep, i, |p|);
      }
    }
  }

  lemma {:induction false} SplitJoin<T>(pieces: seq<seq<T>>, sep: seq<T>)
    requires sep != [] && pieces != [] && AllFree(pieces, sep) && !Bordered(sep)
    ensures SplitSpec(Join(pieces, sep), sep) == pieces
    decreases |pieces|
  {
    if |pieces| == 1 {
      NoneIs(pieces[0], sep);
    } else {
      var p, rest := pieces[0], Join(pieces[1..], sep);
      var s := p + sep + rest;
      FirstIsAfterPiece(p, sep, rest);
      FirstIs(s, sep, |p|);
      assert s[..|p|] == p && s[|p| + |sep|..] == rest;
      SplitJoin(pieces[1..], sep);
    }
  }

  ghost predicate ComesBack<T>(pieces: seq<seq<T>>, sep: seq<T>)
    requires sep != []
  {
    pieces != [] && AllFree(pieces, sep) ==> SplitSpec(Join(pieces, sep), sep) == pieces
  }

  lemma BorderBreaks<T>(sep: seq<T>, b: int)
    requires IsBorder(sep, b)
    ensures !ComesBack([sep[..|sep| - b], []], sep)
  {
    var p := sep[..|sep| - b];
    var pieces := [p, []];
    var s := p + sep + [];
    assert pieces[1..] == [[]];
    assert Join(pieces, sep) == s;
    assert s[0..|sep|] == sep by {
      assert s[..|sep|] == p + sep[..b];
      assert p + sep[|sep| - b..] == sep;
    }
    assert OccursAt(s, sep, 0);
    FirstIs(s, sep, 0);
    assert SplitSpec(s, sep)[0] == [];
  }

  /** Splitting undoes joining, for every list of separator-free pieces, if and only if no proper part
      of the separator both begins and ends it.  "aa" fails: the pieces "a", "" come back as "", "a". */
  lemma SplitUndoesJoinIff<T(!new)>(sep: seq<T>)
    requires sep != []
    ensures (forall pieces :: ComesBack(pieces, sep)) <==> !Bordered(sep)
  {
    if b :| IsBorder(sep, b) {
      BorderBreaks(sep, b);
    } else {
      forall pieces
        ensures ComesBack(pieces, sep)
      {
        if pieces != [] && AllFree(pieces, sep) {
          SplitJoin(pieces, sep);
        }
      }
    }
  }

  /** A separator of one character has no such part, so for it the round trip always holds. */
  lemma OneCharacterComesBack<T(!new)>(c: T)
    ensures forall pieces :: ComesBack(pieces, [c])
  {
    assert !Bordered([c]);
    SplitUndoesJoinIff([c]);
  }
}
