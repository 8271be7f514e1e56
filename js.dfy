/** JavaScript values and the string operations the generation client and the
    clipboard code rely on: `indexOf`, `substring` and `split` with a
    one-character argument, with JavaScript's own edge cases. */
module Js {

  datatype Option<+T> = None | Some(value: T)

  /** A thrown JavaScript error, seen through its `name` and `message`. */
  datatype Error = Error(name: string, message: string)

  datatype Result<+T> = Ok(value: T) | Err(error: Error)

  /** No element occurs again later on (the keys of a JavaScript object). */
  predicate Distinct<T(==)>(s: seq<T>) {
    s == [] || (s[0] !in s[1..] && Distinct(s[1..]))
  }

  /** `xs[i]`, which is `undefined` past the end of the array. */
  function At<T>(xs: seq<T>, i: nat): (r: Option<T>)
    ensures r.Some? <==> i < |xs|
    ensures r.Some? ==> r.value == xs[i]
  {
    if i < |xs| then Some(xs[i]) else None
  }

  /** `s.indexOf(c)`: the first position of `c` in `s`, or -1. */
  function IndexOf(s: string, c: char): (r: int)
    ensures r == -1 <==> c !in s
    ensures r != -1 ==> 0 <= r < |s| && s[r] == c && c !in s[..r]
  {
    if |s| == 0 then -1
    else if s[0] == c then 0
    else
      var i := IndexOf(s[1..], c);
      if i == -1 then -1
      else
        assert s[..i + 1] == [s[0]] + s[1..][..i];
        i + 1
  }

  /** The first occurrence is the only one before which `c` does not occur. */
  lemma IndexOfAt(s: string, c: char, j: nat)
    requires j < |s| && s[j] == c && c !in s[..j]
    ensures IndexOf(s, c) == j
  {
    assert s[j] in s;
    var r := IndexOf(s, c);
    assert forall k :: 0 <= k < j ==> s[..j][k] == s[k];
    assert forall k :: 0 <= k < r ==> s[..r][k] == s[k];
  }

  /** JavaScript clamps a `substring` bound into [0, len]. */
  function Clamp(k: int, len: nat): (r: nat)
    ensures r <= len
  {
    if k < 0 then 0 else if k > len then len else k
  }

  /** `s.substring(start, end)`: both bounds clamped, then swapped when the
      end comes before the start. */
  function Substring(s: string, start: int, end: int): (r: string)
    ensures 0 <= start <= end <= |s| ==> r == s[start..end]
    ensures 0 <= end <= start <= |s| ==> r == s[end..start]
    ensures end < 0 && 0 <= start <= |s| ==> r == s[..start]
    ensures start < 0 && 0 <= end <= |s| ==> r == s[..end]
    ensures end > |s| && 0 <= start <= |s| ==> r == s[start..]
    ensures start > |s| && 0 <= end <= |s| ==> r == s[end..]
    ensures (start < 0 && end > |s|) || (end < 0 && start > |s|) ==> r == s
    ensures (start <= 0 && end <= 0) || (start >= |s| && end >= |s|) ==> r == []
  {
    var a, b := Clamp(start, |s|), Clamp(end, |s|);
    if a <= b then s[a..b] else s[b..a]
  }

  /** `s.split(sep)` for a one-character separator: the pieces between the
      occurrences of `sep`, in order; a string without `sep` splits into itself. */
  function Split(s: string, sep: char): (r: seq<string>)
    ensures |r| >= 1
    ensures |r| == 1 <==> sep !in s
    decreases |s|
  {
    var i := IndexOf(s, sep);
    if i == -1 then [s] else [s[..i]] + Split(s[i + 1..], sep)
  }

  /** No piece of a split contains the separator. */
  lemma {:induction false} SplitPiecesOmitSeparator(s: string, sep: char)
    ensures forall k :: 0 <= k < |Split(s, sep)| ==> sep !in Split(s, sep)[k]
    decreases |s|
  {
    var i := IndexOf(s, sep);
    if i != -1 {
      var rest := Split(s[i + 1..], sep);
      SplitStep(s, sep);
      SplitPiecesOmitSeparator(s[i + 1..], sep);
      forall k | 0 <= k < |Split(s, sep)| ensures sep !in Split(s, sep)[k] {
        if k > 0 {
          assert Split(s, sep)[k] == rest[k - 1];
        }
      }
    } else {
      assert Split(s, sep) == [s];
    }
  }

  /** `parts.join(sep)`: the inverse of `Split`. */
  function Join(parts: seq<string>, sep: char): string
    requires |parts| >= 1
  {
    if |parts| == 1 then parts[0] else parts[0] + [sep] + Join(parts[1..], sep)
  }

  /** One step of `Split`: the piece before the first separator, then the rest split. */
  lemma SplitStep(s: string, sep: char)
    requires IndexOf(s, sep) != -1
    ensures Split(s, sep) == [s[..IndexOf(s, sep)]] + Split(s[IndexOf(s, sep) + 1..], sep)
  {
  }

  /** One step of `Join`: the first piece, the separator, then the rest joined. */
  lemma JoinStep(p: string, tail: seq<string>, sep: char)
    requires |tail| >= 1
    ensures Join([p] + tail, sep) == p + [sep] + Join(tail, sep)
  {
    assert ([p] + tail)[1..] == tail;
  }

  /** A string is the part before an index, the character there, and the part after. */
  lemma Around(s: string, i: nat)
    requires i < |s|
    ensures s[..i] + [s[i]] + s[i + 1..] == s
  {
  }

  /** Splitting and joining again gives back the string. */
  lemma {:induction false} JoinSplit(s: string, sep: char)
    ensures Join(Split(s, sep), sep) == s
    decreases |s|
  {
    var i := IndexOf(s, sep);
    if i != -1 {
      var rest := s[i + 1..];
      SplitStep(s, sep);
      JoinSplit(rest, sep);
      JoinStep(s[..i], Split(rest, sep), sep);
      Around(s, i);
    } else {
      assert Split(s, sep) == [s];
    }
  }

  /** Joining pieces free of the separator and splitting again gives back the pieces. */
  lemma {:induction false} SplitJoin(parts: seq<string>, sep: char)
    requires |parts| >= 1
    requires forall i :: 0 <= i < |parts| ==> sep !in parts[i]
    ensures Split(Join(parts, sep), sep) == parts
  {
    if |parts| > 1 {
      var s := Join(parts, sep);
      var p := parts[0];
      assert s == p + [sep] + Join(parts[1..], sep);
      assert s[..|p|] == p;
      IndexOfAt(s, sep, |p|);
      assert s[|p| + 1..] == Join(parts[1..], sep);
      SplitJoin(parts[1..], sep);
    }
  }
}
