/** Texts in the order of `sorted`. */
module TextOrder {
  predicate Less(a: string, b: string) {
    if b == "" then false
    else if a == "" then true
    else a[0] < b[0] || (a[0] == b[0] && Less(a[1..], b[1..]))
  }

  /** The first difference is at `k`, and `a` has the smaller character there. */
  ghost predicate SmallerAt(a: string, b: string, k: nat) {
    k < |a| && k < |b| && a[..k] == b[..k] && a[k] < b[k]
  }

  /** A proper prefix comes first, and else the first difference decides. */
  lemma {:induction false} LessMeans(a: string, b: string)
    ensures Less(a, b) <==> (a < b) || exists k: nat :: SmallerAt(a, b, k)
    decreases |a|
  {
    if a != "" && b != "" {
      assert a == [a[0]] + a[1..] && b == [b[0]] + b[1..];
      LessMeans(a[1..], b[1..]);
      if k: nat :| SmallerAt(a[1..], b[1..], k) {
        assert a[0] == b[0] ==> SmallerAt(a, b, k + 1);
      }
      if k: nat :| SmallerAt(a, b, k) && k > 0 {
        assert a[..k][0] == b[..k][0];
        assert a[1..][..k - 1] == a[..k][1..] && b[1..][..k - 1] == b[..k][1..];
        assert SmallerAt(a[1..], b[1..], k - 1);
      }
      assert a[0] < b[0] ==> SmallerAt(a, b, 0);
      assert a < b ==> a[0] == b[0] && a[1..] < b[1..];
      assert a[0] == b[0] && a[1..] < b[1..] ==> a < b;
    }
  }

  lemma {:induction false} LessIsTotal(a: string, b: string)
    ensures !(Less(a, b) && Less(b, a))
    ensures a != b ==> Less(a, b) || Less(b, a)
    ensures !Less(a, a)
    decreases |a|
  {
    if a != "" && b != "" {
      LessIsTotal(a[1..], b[1..]);
      LessIsTotal(a[1..], a[1..]);
      if a[0] == b[0] && a[1..] == b[1..] {
        assert a == [a[0]] + a[1..] && b == [b[0]] + b[1..];
      }
    } else if a != "" {
      LessIsTotal(a[1..], a[1..]);
    }
  }

  lemma {:induction false} LessIsTransitive(a: string, b: string, c: string)
    requires Less(a, b) && Less(b, c)
    ensures Less(a, c)
    decreases |a|
  {
    if a != "" && a[0] == b[0] && b[0] == c[0] {
      LessIsTransitive(a[1..], b[1..], c[1..]);
    }
  }

  /** Pairwise strictly increasing. */
  ghost predicate Ascending(texts: seq<string>) {
    forall i, k :: 0 <= i < k < |texts| ==> Less(texts[i], texts[k])
  }

  /** `sorted(set(...))`, by insertion. */
  function Insert(text: string, sorted: seq<string>): seq<string> {
    if sorted == [] then [text]
    else if text == sorted[0] then sorted
    else if Less(text, sorted[0]) then [text] + sorted
    else [sorted[0]] + Insert(text, sorted[1..])
  }

  function SortedSet(texts: seq<string>): seq<string> {
    if texts == [] then [] else Insert(texts[0], SortedSet(texts[1..]))
  }

  lemma {:induction false} InsertAscends(text: string, sorted: seq<string>)
    requires Ascending(sorted)
    ensures Ascending(Insert(text, sorted))
    ensures forall x :: x in Insert(text, sorted) <==> x == text || x in sorted
    decreases |sorted|
  {
    if sorted != [] && text != sorted[0] {
      LessIsTotal(text, sorted[0]);
      if Less(text, sorted[0]) {
        forall k | 0 <= k < |sorted| ensures Less(text, sorted[k]) {
          if k > 0 {
            LessIsTransitive(text, sorted[0], sorted[k]);
          }
        }
      } else {
        var rest := Insert(text, sorted[1..]);
        InsertAscends(text, sorted[1..]);
        forall x | x in rest ensures Less(sorted[0], x) {
          if x != text {
            var k :| 0 <= k < |sorted[1..]| && sorted[1..][k] == x;
            assert Less(sorted[0], sorted[k + 1]);
          }
        }
        assert sorted == [sorted[0]] + sorted[1..];
      }
    }
  }

  lemma {:induction false} SortedSetAscends(texts: seq<string>)
    ensures Ascending(SortedSet(texts))
    ensures forall x :: x in SortedSet(texts) <==> x in texts
    decreases |texts|
  {
    if texts != [] {
      SortedSetAscends(texts[1..]);
      InsertAscends(texts[0], SortedSet(texts[1..]));
      assert texts == [texts[0]] + texts[1..];
    }
  }

  /** `texts == sorted(set(texts))` is strict ascent. */
  lemma {:induction false} SortedSetFixesAscending(texts: seq<string>)
    ensures SortedSet(texts) == texts <==> Ascending(texts)
    decreases |texts|
  {
    SortedSetAscends(texts);
    if Ascending(texts) && texts != [] {
      forall i, k | 0 <= i < k < |texts[1..]| ensures Less(texts[1..][i], texts[1..][k]) {
        assert Less(texts[i + 1], texts[k + 1]);
      }
      SortedSetFixesAscending(texts[1..]);
      if |texts| > 1 {
        LessIsTotal(texts[0], texts[1]);
      }
      assert texts == [texts[0]] + texts[1..];
    }
  }
}
