/** Python's `str` operations that the client uses to cut identifiers out of provider URLs:
    `pat in s`, `s.find(pat)`, `s.split(sep)`, `sep.join(parts)` and the two halves of
    `s.partition(sep)`. Strings are sequences of characters; a Python `IndexError` or
    `KeyError` is the `None` of an `Option`. */
module PyStr {

  datatype Option<+T> = None | Some(value: T)

  /** `pat` occurs in `s` starting at index `i`. */
  predicate OccursAt(s: string, pat: string, i: int) {
    0 <= i && i + |pat| <= |s| && s[i..i + |pat|] == pat
  }

  /** Python's `pat in s` on strings (substring test). */
  predicate Contains(s: string, pat: string) {
    exists i :: 0 <= i <= |s| - |pat| && OccursAt(s, pat, i)
  }

  /** The leftmost occurrence of `pat` in `s` at or after `start` (Python's `s.find(pat, start)`,
      with `None` for -1). */
  function FindFrom(s: string, pat: string, start: nat): (r: Option<nat>)
    ensures r.Some? ==> start <= r.value && OccursAt(s, pat, r.value)
    ensures forall j :: start <= j && OccursAt(s, pat, j) ==> r.Some? && r.value <= j
    decreases |s| - start
  {
    if start + |pat| > |s| then None
    else if s[start..start + |pat|] == pat then Some(start)
    else FindFrom(s, pat, start + 1)
  }

  /** Python's `s.find(pat)`: the leftmost occurrence, `None` exactly when `pat not in s`. */
  function Find(s: string, pat: string): (r: Option<nat>)
    ensures r.Some? ==> OccursAt(s, pat, r.value)
    ensures r.Some? ==> forall j :: 0 <= j < r.value ==> !OccursAt(s, pat, j)
    ensures r.None? <==> !Contains(s, pat)
  {
    FindFrom(s, pat, 0)
  }

  /** Python's `sep.join(parts)`. */
  function Join(parts: seq<string>, sep: string): string
  {
    if |parts| == 0 then []
    else if |parts| == 1 then parts[0]
    else parts[0] + sep + Join(parts[1..], sep)
  }

  /** Python's `s.split(sep)` for a non-empty separator: the text is cut at every
      occurrence of `sep`, scanning left to right. */
  function Split(s: string, sep: string): (parts: seq<string>)
    requires sep != []
    ensures |parts| >= 1
    decreases |s|
  {
    match Find(s, sep)
    case None => [s]
    case Some(i) => [s[..i]] + Split(s[i + |sep|..], sep)
  }

  /** The pieces of a split join back to the text, and none of them contains the
      separator. */
  lemma {:induction false} SplitPieces(s: string, sep: string)
    requires sep != []
    ensures Join(Split(s, sep), sep) == s
    ensures forall k :: 0 <= k < |Split(s, sep)| ==> !Contains(Split(s, sep)[k], sep)
    decreases |s|
  {
    match Find(s, sep)
    case None =>
    case Some(i) =>
      var head, tail := s[..i], s[i + |sep|..];
      var rest := Split(tail, sep);
      SplitPieces(tail, sep);
      assert !Contains(head, sep) by {
        forall j | OccursAt(head, sep, j) ensures false {
          assert s[j..j + |sep|] == head[j..j + |sep|];
          assert OccursAt(s, sep, j) && j < i;
        }
      }
      assert s == head + sep + tail;
      assert ([head] + rest)[1..] == rest;
      assert Split(s, sep) == [head] + rest;
  }

  /** The text before the first `sep`, or all of `s` when there is none
      (Python's `s.partition(sep)[0]`). */
  function Before(s: string, sep: string): string
  {
    match Find(s, sep)
    case None => s
    case Some(i) => s[..i]
  }

  /** The text after the first `sep`, `None` when `sep not in s`
      (Python's `s.partition(sep)[2]`, distinguishing "absent"). */
  function After(s: string, sep: string): Option<string>
  {
    match Find(s, sep)
    case None => None
    case Some(i) => Some(s[i + |sep|..])
  }

  /** The first piece of a split is the text before the first separator. */
  lemma SplitHead(s: string, sep: string)
    requires sep != []
    ensures Split(s, sep)[0] == Before(s, sep)
  {
  }

  /** The pieces after the first are the pieces of the text after the first separator. */
  lemma SplitTail(s: string, sep: string)
    requires sep != []
    ensures After(s, sep).None? ==> |Split(s, sep)| == 1
    ensures After(s, sep).Some? ==> Split(s, sep)[1..] == Split(After(s, sep).value, sep)
    ensures After(s, sep).Some? ==> Split(s, sep)[1] == Before(After(s, sep).value, sep)
  {
    if After(s, sep).Some? {
      SplitHead(After(s, sep).value, sep);
    }
  }

  /** Python's `s.split(sep)[k]`, with `None` for the `IndexError`. Field 0 is the text
      before the first separator; field 1 exists exactly when the separator occurs, and is
      the text between its first and its second occurrence. */
  function Field(s: string, sep: string, k: nat): (r: Option<string>)
    requires sep != []
    ensures k == 0 ==> r == Some(Before(s, sep))
    ensures k == 1 ==> r == match After(s, sep)
                            case None => None
                            case Some(t) => Some(Before(t, sep))
  {
    var parts := Split(s, sep);
    SplitHead(s, sep);
    SplitTail(s, sep);
    if k < |parts| then Some(parts[k]) else None
  }

  /** No occurrence of `sep` starts inside `a`, whatever follows `a`: `a` followed by all
      but the last character of `sep` does not contain `sep`. */
  predicate NoneStartsIn(a: string, sep: string)
    requires sep != []
  {
    !Contains(a + sep[..|sep| - 1], sep)
  }

  /** When no occurrence of `sep` starts inside `a`, the first `sep` of `a + sep + b` is the
      one right after `a`. */
  lemma FindAfterPrefix(a: string, sep: string, b: string)
    requires sep != []
    requires NoneStartsIn(a, sep)
    ensures Find(a + sep + b, sep) == Some(|a|)
  {
    var s := a + sep + b;
    var t := a + sep[..|sep| - 1];
    assert OccursAt(s, sep, |a|) by { assert s[|a|..|a| + |sep|] == sep; }
    forall j | 0 <= j < |a| && OccursAt(s, sep, j) ensures false {
      assert s[j..j + |sep|] == t[j..j + |sep|];
      assert OccursAt(t, sep, j);
    }
  }

  /** Splitting `a + sep + b`, with `a` as in `FindAfterPrefix`, gives `a` and then the
      pieces of `b`. */
  lemma SplitAfterPrefix(a: string, sep: string, b: string)
    requires sep != []
    requires NoneStartsIn(a, sep)
    ensures Split(a + sep + b, sep) == [a] + Split(b, sep)
    ensures Before(a + sep + b, sep) == a && After(a + sep + b, sep) == Some(b)
  {
    FindAfterPrefix(a, sep, b);
    assert (a + sep + b)[..|a|] == a;
    assert (a + sep + b)[|a| + |sep|..] == b;
  }

  /** A separator none of whose proper suffixes is also a prefix of it. Text that does not
      contain such a separator cannot be completed into an occurrence by a prefix of it. */
  predicate BorderFree(sep: string) {
    forall k :: 0 < k < |sep| ==> sep[k..] != sep[..|sep| - k]
  }

  /** A separator whose last character appears nowhere else in it is border-free. */
  lemma UniqueLastCharBorderFree(sep: string)
    requires sep != []
    requires sep[|sep| - 1] !in sep[..|sep| - 1]
    ensures BorderFree(sep)
  {
    var n := |sep|;
    forall k | 0 < k < n ensures sep[k..] != sep[..n - k] {
      assert sep[k..][n - k - 1] == sep[n - 1];
      assert sep[..n - k][n - k - 1] == sep[..n - 1][n - k - 1];
    }
  }

  /** An occurrence of `sep` that starts inside `a` and runs into the appended prefix of
      `sep` matches a proper suffix of `sep` against a prefix of it. */
  lemma OverlapIsBorder(a: string, sep: string, j: int)
    requires sep != []
    requires 0 <= j < |a| < j + |sep|
    requires OccursAt(a + sep[..|sep| - 1], sep, j)
    ensures sep[|a| - j..] == sep[..|sep| - (|a| - j)]
  {
    var n, k, t := |sep|, |a| - j, a + sep[..|sep| - 1];
    forall m | 0 <= m < n - k ensures sep[k..][m] == sep[..n - k][m] {
      assert t[j..j + n][k + m] == t[|a| + m];
    }
  }

  /** For a border-free separator, a text that does not contain it still does not when
      followed by any proper prefix of the separator. */
  lemma {:induction false} NoOccurrenceAcrossBorder(a: string, sep: string)
    requires sep != [] && BorderFree(sep)
    requires !Contains(a, sep)
    ensures NoneStartsIn(a, sep)
  {
    var n := |sep|;
    var t := a + sep[..n - 1];
    forall j | OccursAt(t, sep, j) ensures false {
      // An occurrence ending inside the appended prefix of `sep` would make a proper
      // suffix of `sep` equal to one of its prefixes.
      if j + n <= |a| {
        assert t[j..j + n] == a[j..j + n];
        assert OccursAt(a, sep, j);
      } else {
        OverlapIsBorder(a, sep, j);
        assert false;
      }
    }
  }

  /** A one-character separator occurs in `s` exactly when its character does. */
  lemma ContainsChar(s: string, c: char)
    ensures Contains(s, [c]) <==> c in s
  {
    if c in s {
      var i :| 0 <= i < |s| && s[i] == c;
      assert OccursAt(s, [c], i);
    }
    if Contains(s, [c]) {
      var i :| 0 <= i <= |s| - 1 && OccursAt(s, [c], i);
      assert s[i..i + 1][0] == s[i];
    }
  }

  /** A text that lacks the first character of `pat` does not contain `pat`. */
  lemma AbsentFirstChar(s: string, pat: string)
    requires pat != [] && pat[0] !in s
    ensures !Contains(s, pat)
  {
  }

  /** Every text contains itself. */
  lemma ContainsSelf(s: string)
    ensures Contains(s, s)
  {
    assert OccursAt(s, s, 0);
  }

  /** Splitting the join of pieces that do not contain a border-free separator gives the
      pieces back: `sep.join(parts).split(sep) == parts`. */
  lemma {:induction false} SplitJoin(parts: seq<string>, sep: string)
    requires sep != [] && BorderFree(sep)
    requires |parts| >= 1
    requires forall k :: 0 <= k < |parts| ==> !Contains(parts[k], sep)
    ensures Split(Join(parts, sep), sep) == parts
  {
    if |parts| == 1 {
      assert Find(parts[0], sep).None?;
    } else {
      NoOccurrenceAcrossBorder(parts[0], sep);
      SplitAfterPrefix(parts[0], sep, Join(parts[1..], sep));
      SplitJoin(parts[1..], sep);
      assert [parts[0]] + parts[1..] == parts;
    }
  }
}
