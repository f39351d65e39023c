/**
 * Python's `str.split(sep)` and `sep.join(parts)` on strings, with the
 * facts about them that the renderer, the layout and the font loader need.
 */
module Text {

  /** `sep.join(parts)`: the parts in order, with `sep` between neighbours. */
  function Join(sep: string, parts: seq<string>): string
  {
    if |parts| == 0 then ""
    else if |parts| == 1 then parts[0]
    else parts[0] + sep + Join(sep, parts[1..])
  }

  /**
   * `s.split(sep)` for a non-empty separator: cut at the leftmost
   * occurrence of `sep`, then go on after it; always at least one piece.
   */
  function Split(s: string, sep: string): (pieces: seq<string>)
    requires |sep| > 0
    ensures |pieces| >= 1
    decreases |s|
  {
    if |s| < |sep| then [s]
    else if s[..|sep|] == sep then [""] + Split(s[|sep|..], sep)
    else
      var rest := Split(s[1..], sep);
      [[s[0]] + rest[0]] + rest[1..]
  }

  /** `sep` occurs in `s` at position `k`. */
  predicate OccursAt(s: string, k: int, sep: string)
  {
    0 <= k && k + |sep| <= |s| && s[k..k + |sep|] == sep
  }

  /**
   * No occurrence of `sep` starts inside `p`, even one that runs on into a
   * separator written right after `p`: joining such parts with `sep` puts
   * the leftmost occurrences exactly at the joins.
   */
  predicate SepFree(p: string, sep: string)
  {
    forall k :: 0 <= k < |p| ==> !OccursAt(p + sep, k, sep)
  }

  /** Sum of the lengths of the parts. */
  function TotalLength(parts: seq<string>): nat
  {
    if |parts| == 0 then 0 else |parts[0]| + TotalLength(parts[1..])
  }

  lemma {:induction false} JoinLength(sep: string, parts: seq<string>)
    requires |parts| >= 1
    ensures |Join(sep, parts)| == TotalLength(parts) + |sep| * (|parts| - 1)
  {
    if |parts| > 1 {
      JoinLength(sep, parts[1..]);
    }
  }

  /** Appending a part appends the separator and the part. */
  lemma {:induction false} JoinSnoc(sep: string, parts: seq<string>, x: string)
    requires |parts| >= 1
    ensures Join(sep, parts + [x]) == Join(sep, parts) + sep + x
  {
    if |parts| == 1 {
      assert parts + [x] == [parts[0], x];
      assert (parts + [x])[1..] == [x];
    } else {
      assert (parts + [x])[1..] == parts[1..] + [x];
      JoinSnoc(sep, parts[1..], x);
    }
  }

  /** A character in none of the parts and not in the separator is not in the join. */
  lemma {:induction false} JoinAvoids(sep: string, parts: seq<string>, c: char)
    requires c !in sep
    requires forall i :: 0 <= i < |parts| ==> c !in parts[i]
    ensures c !in Join(sep, parts)
  {
    if |parts| > 1 {
      JoinAvoids(sep, parts[1..], c);
    }
  }

  /** A part free of the separator is split off again before the separator. */
  lemma {:induction false} SplitAfterPart(p: string, sep: string, rest: string)
    requires |sep| > 0
    requires SepFree(p, sep)
    ensures Split(p + sep + rest, sep) == [p] + Split(rest, sep)
    decreases |p|
  {
    var s := p + sep + rest;
    if |p| == 0 {
      assert s[..|sep|] == sep;
      assert s[|sep|..] == rest;
    } else {
      assert (p + sep)[0..|sep|] == s[..|sep|];
      assert !OccursAt(p + sep, 0, sep);
      assert s[..|sep|] != sep;
      var q := p[1..];
      assert s[1..] == q + sep + rest;
      forall k | 0 <= k < |q|
        ensures !OccursAt(q + sep, k, sep)
      {
        assert (q + sep)[k..k + |sep|] == (p + sep)[k + 1..k + 1 + |sep|];
        assert !OccursAt(p + sep, k + 1, sep);
      }
      SplitAfterPart(q, sep, rest);
      assert [s[0]] + q == p;
    }
  }

  /** A string free of the separator splits into itself alone. */
  lemma {:induction false} SplitWhole(p: string, sep: string)
    requires |sep| > 0
    requires SepFree(p, sep)
    ensures Split(p, sep) == [p]
    decreases |p|
  {
    if |p| >= |sep| {
      assert (p + sep)[0..|sep|] == p[..|sep|];
      assert !OccursAt(p + sep, 0, sep);
      var q := p[1..];
      forall k | 0 <= k < |q|
        ensures !OccursAt(q + sep, k, sep)
      {
        assert (q + sep)[k..k + |sep|] == (p + sep)[k + 1..k + 1 + |sep|];
        assert !OccursAt(p + sep, k + 1, sep);
      }
      SplitWhole(q, sep);
      assert [p[0]] + q == p;
    }
  }

  /** Splitting undoes joining, for parts free of the separator. */
  lemma {:induction false} SplitJoin(parts: seq<string>, sep: string)
    requires |sep| > 0 && |parts| >= 1
    requires forall i :: 0 <= i < |parts| ==> SepFree(parts[i], sep)
    ensures Split(Join(sep, parts), sep) == parts
  {
    if |parts| == 1 {
      SplitWhole(parts[0], sep);
    } else {
      SplitJoin(parts[1..], sep);
      SplitAfterPart(parts[0], sep, Join(sep, parts[1..]));
    }
  }

  /** Joining undoes splitting, for every string. */
  lemma {:induction false} JoinSplit(s: string, sep: string)
    requires |sep| > 0
    ensures Join(sep, Split(s, sep)) == s
    decreases |s|
  {
    if |s| < |sep| {
    } else if s[..|sep|] == sep {
      JoinSplit(s[|sep|..], sep);
      assert ([""] + Split(s[|sep|..], sep))[1..] == Split(s[|sep|..], sep);
      assert s == sep + s[|sep|..];
    } else {
      var rest := Split(s[1..], sep);
      JoinSplit(s[1..], sep);
      var pieces := [[s[0]] + rest[0]] + rest[1..];
      if |rest| == 1 {
        assert pieces == [[s[0]] + rest[0]];
      } else {
        assert pieces[1..] == rest[1..];
        assert Join(sep, rest) == rest[0] + sep + Join(sep, rest[1..]);
      }
      assert s == [s[0]] + s[1..];
    }
  }

  /** For a one-character separator, being free of it is not containing it. */
  lemma SepFreeChar(p: string, c: char)
    requires c !in p
    ensures SepFree(p, [c])
  {
    forall k | 0 <= k < |p|
      ensures !OccursAt(p + [c], k, [c])
    {
      assert (p + [c])[k..k + 1] == [p[k]];
    }
  }

  /**
   * A separator of two or more characters whose second character differs
   * from its first cannot start inside a string missing that second character.
   */
  lemma SepFreeByMarker(p: string, sep: string)
    requires |sep| >= 2 && sep[0] != sep[1] && sep[1] !in p
    ensures SepFree(p, sep)
  {
    forall k | 0 <= k < |p|
      ensures !OccursAt(p + sep, k, sep)
    {
      if k + |sep| <= |p + sep| {
        assert (p + sep)[k..k + |sep|][1] == (p + sep)[k + 1];
        if k + 1 < |p| {
          assert (p + sep)[k + 1] == p[k + 1];
        } else {
          assert (p + sep)[k + 1] == sep[0];
        }
      }
    }
  }

  /** No piece of a split on one character contains that character. */
  lemma {:induction false} SplitPiecesAvoid(s: string, c: char)
    ensures forall i :: 0 <= i < |Split(s, [c])| ==> c !in Split(s, [c])[i]
    decreases |s|
  {
    if |s| >= 1 && s[..1] != [c] {
      SplitPiecesAvoid(s[1..], c);
      assert s[0] != c;
    } else if |s| >= 1 {
      SplitPiecesAvoid(s[1..], c);
    }
  }
}
