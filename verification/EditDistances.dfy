/**
 * Edit distance and title similarity (packages/work-items-store/src/operations.ts:1286-1321).
 * Scores are exact rationals.
 */
module EditDistances {
  import opened Wrappers

  function Min(a: nat, b: nat): nat {
    if a < b then a else b
  }

  function Max(a: nat, b: nat): nat {
    if a < b then b else a
  }

  function Front(s: string): string
    requires s != ""
  {
    s[..|s| - 1]
  }

  function Last(s: string): char
    requires s != ""
  {
    s[|s| - 1]
  }

  /** The recursive edit distance. */
  function Distance(a: string, b: string): nat
    decreases |a| + |b|
  {
    if a == "" then |b|
    else if b == "" then |a|
    else
      Min(Min(Distance(a, Front(b)) + 1, Distance(Front(a), b) + 1),
          Distance(Front(a), Front(b)) + if Last(a) == Last(b) then 0 else 1)
  }

  // ----- the distance is the least number of edits ------------------------

  datatype EditOp = Keep | Change(c: char) | Insert(c: char) | Delete

  function Cost(ops: seq<EditOp>): nat {
    if ops == [] then 0 else Cost(ops[..|ops| - 1]) + if ops[|ops| - 1].Keep? then 0 else 1
  }

  /** The text a script makes of `a`, read from the back; `None` if it does not fit `a`. */
  function Rewritten(ops: seq<EditOp>, a: string): Option<string>
    decreases |ops|
  {
    if ops == [] then if a == "" then Some("") else None
    else
      var before, op := ops[..|ops| - 1], ops[|ops| - 1];
      if op.Insert? then
        var r := Rewritten(before, a);
        if r.None? then None else Some(r.value + [op.c])
      else if a == "" then None
      else
        var r := Rewritten(before, Front(a));
        if r.None? then None
        else match op
          case Keep => Some(r.value + [Last(a)])
          case Change(c) => Some(r.value + [c])
          case Delete => r
  }

  lemma {:induction false} ScriptCostsAtLeastDistance(ops: seq<EditOp>, a: string, b: string)
    requires Rewritten(ops, a) == Some(b)
    ensures Distance(a, b) <= Cost(ops)
    decreases |ops|
  {
    if ops != [] {
      var before, op := ops[..|ops| - 1], ops[|ops| - 1];
      if op.Insert? {
        ScriptCostsAtLeastDistance(before, a, Front(b));
      } else {
        var r := Rewritten(before, Front(a)).value;
        ScriptCostsAtLeastDistance(before, Front(a), r);
        if !op.Delete? {
          assert Front(b) == r;
        }
      }
    }
  }

  lemma OneMoreEdit(before: seq<EditOp>, op: EditOp)
    ensures var ops := before + [op];
      ops[..|ops| - 1] == before && ops[|ops| - 1] == op && Cost(ops) == Cost(before) + if op.Keep? then 0 else 1
  {
    assert (before + [op])[..|before|] == before;
  }

  lemma {:induction false} SomeScriptCostsDistance(a: string, b: string) returns (ops: seq<EditOp>)
    ensures Rewritten(ops, a) == Some(b) && Cost(ops) == Distance(a, b)
    decreases |a| + |b|
  {
    if a == "" && b == "" {
      ops := [];
    } else if b != "" && (a == "" || Distance(a, b) == Distance(a, Front(b)) + 1) {
      var before := SomeScriptCostsDistance(a, Front(b));
      OneMoreEdit(before, Insert(Last(b)));
      ops := before + [Insert(Last(b))];
      assert Front(b) + [Last(b)] == b;
    } else if b == "" || Distance(a, b) == Distance(Front(a), b) + 1 {
      var before := SomeScriptCostsDistance(Front(a), b);
      OneMoreEdit(before, Delete);
      ops := before + [Delete];
    } else {
      var before := SomeScriptCostsDistance(Front(a), Front(b));
      var op := if Last(a) == Last(b) then Keep else Change(Last(b));
      OneMoreEdit(before, op);
      ops := before + [op];
      assert Front(b) + [Last(b)] == b;
    }
  }

  /** The distance is the least number of single-character changes, insertions and deletions. */
  lemma DistanceIsLeast(a: string, b: string)
    ensures exists ops :: Rewritten(ops, a) == Some(b) && Cost(ops) == Distance(a, b)
    ensures forall ops :: Rewritten(ops, a) == Some(b) ==> Distance(a, b) <= Cost(ops)
  {
    var best := SomeScriptCostsDistance(a, b);
    forall ops | Rewritten(ops, a) == Some(b) ensures Distance(a, b) <= Cost(ops) {
      ScriptCostsAtLeastDistance(ops, a, b);
    }
  }

  lemma {:induction false} DistanceSymmetric(a: string, b: string)
    ensures Distance(a, b) == Distance(b, a)
    decreases |a| + |b|
  {
    if a != "" && b != "" {
      DistanceSymmetric(a, Front(b));
      DistanceSymmetric(Front(a), b);
      DistanceSymmetric(Front(a), Front(b));
    }
  }

  lemma {:induction false} DistanceBounds(a: string, b: string)
    ensures Distance(a, b) <= Max(|a|, |b|)
    ensures Distance(a, b) == 0 <==> a == b
    decreases |a| + |b|
  {
    if a != "" && b != "" {
      DistanceBounds(Front(a), Front(b));
      assert a == Front(a) + [Last(a)] && b == Front(b) + [Last(b)];
    }
  }

  // ----- the two-row loop -------------------------------------------------

  predicate RowIs(row: seq<nat>, a: string, b: string, upTo: nat) {
    upTo <= |row| && upTo <= |b| + 1 && forall j | 0 <= j < upTo :: row[j] == Distance(a, b[..j])
  }

  /** One cell of the table from the three before it. */
  lemma NextCell(left: string, right: string, i: nat, j: nat, previous: seq<nat>, current: seq<nat>)
    requires 0 < i <= |left| && 0 < j <= |right|
    requires RowIs(previous, left[..i - 1], right, j + 1) && RowIs(current, left[..i], right, j)
    ensures Distance(left[..i], right[..j]) ==
      Min(Min(current[j - 1] + 1, previous[j] + 1), previous[j - 1] + if left[i - 1] == right[j - 1] then 0 else 1)
  {
    assert Front(left[..i]) == left[..i - 1] && Front(right[..j]) == right[..j - 1];
  }

  method Levenshtein(left: string, right: string) returns (distance: nat)
    ensures distance == Distance(left, right)
  {
    var width := |right| + 1;
    var previous := new nat[width](j => j);
    var current := new nat[width];
    for i := 1 to |left| + 1
      invariant RowIs(previous[..], left[..i - 1], right, width)
    {
      label RowStart:
      current[0] := i;
      for j := 1 to width
        invariant previous[..] == old@RowStart(previous[..])
        invariant RowIs(current[..], left[..i], right, j)
      {
        var cost := if left[i - 1] == right[j - 1] then 0 else 1;
        NextCell(left, right, i, j, previous[..], current[..]);
        current[j] := Min(Min(current[j - 1] + 1, previous[j] + 1), previous[j - 1] + cost);
      }
      forall j | 0 <= j < width {
        previous[j] := current[j];
      }
      assert previous[..] == current[..];
    }
    assert left[..|left|] == left && right[..|right|] == right;
    return previous[|right|];
  }

  // ----- titleSimilarity --------------------------------------------------

  /** `text.split(" ")` */
  function SplitSpace(text: string): (parts: seq<string>)
    ensures |parts| >= 1
  {
    if text == "" then [""]
    else
      var rest := SplitSpace(text[1..]);
      if text[0] == ' ' then [""] + rest else [[text[0]] + rest[0]] + rest[1..]
  }

  function Tokens(text: string): set<string> {
    set t | t in SplitSpace(text)
  }

  lemma TokensNonEmpty(text: string)
    ensures Tokens(text) != {}
  {
    assert SplitSpace(text)[0] in Tokens(text);
  }

  function TokenScore(a: string, b: string): real {
    var shared, all := Tokens(a) * Tokens(b), Tokens(a) + Tokens(b);
    if |all| == 0 then 0.0 else |shared| as real / |all| as real
  }

  function EditScore(a: string, b: string): real
    requires Max(|a|, |b|) > 0
  {
    1.0 - Distance(a, b) as real / Max(|a|, |b|) as real
  }

  function Similarity(a: string, b: string): real {
    if a == b then 1.0
    else if a == "" || b == "" then 0.0
    else
      var t, e := TokenScore(a, b), EditScore(a, b);
      if t < e then e else t
  }

  lemma RatioBounds(m: nat, n: nat)
    requires m <= n && n > 0
    ensures 0.0 <= m as real / n as real <= 1.0
  {
  }

  lemma SubsetSize<T>(a: set<T>, b: set<T>)
    requires a <= b
    ensures |a| <= |b|
  {
    assert b == a + (b - a);
  }

  /** Similarity lies in [0, 1]. */
  lemma SimilarityBounds(a: string, b: string)
    ensures 0.0 <= Similarity(a, b) <= 1.0
  {
    if a != b && a != "" && b != "" {
      var shared, all := Tokens(a) * Tokens(b), Tokens(a) + Tokens(b);
      TokensNonEmpty(a);
      assert all != {};
      SubsetSize(shared, all);
      RatioBounds(|shared|, |all|);
      DistanceBounds(a, b);
      RatioBounds(Distance(a, b), Max(|a|, |b|));
    }
  }

  lemma SimilaritySymmetric(a: string, b: string)
    ensures Similarity(a, b) == Similarity(b, a)
  {
    DistanceSymmetric(a, b);
    assert Tokens(a) * Tokens(b) == Tokens(b) * Tokens(a);
    assert Tokens(a) + Tokens(b) == Tokens(b) + Tokens(a);
  }

  /** How many of the left tokens are among the right ones. */
  method CountShared(left: set<string>, right: set<string>) returns (count: nat)
    ensures count == |left * right|
  {
    count := 0;
    var rest := left;
    while rest != {}
      invariant rest <= left && count == |(left - rest) * right|
      decreases rest
    {
      var token :| token in rest;
      if token in right {
        assert (left - (rest - {token})) * right == (left - rest) * right + {token};
        count := count + 1;
      } else {
        assert (left - (rest - {token})) * right == (left - rest) * right;
      }
      rest := rest - {token};
    }
    assert (left - {}) * right == left * right;
  }

  method TitleSimilarity(left: string, right: string) returns (score: real)
    ensures score == Similarity(left, right)
  {
    if left == right {
      return 1.0;
    }
    if |left| == 0 || |right| == 0 {
      return 0.0;
    }
    var leftTokens, rightTokens := Tokens(left), Tokens(right);
    var union := leftTokens + rightTokens;
    var intersection := CountShared(leftTokens, rightTokens);
    var tokenScore := if |union| == 0 then 0.0 else intersection as real / |union| as real;
    var distance := Levenshtein(left, right);
    var editScore := 1.0 - distance as real / Max(|left|, |right|) as real;
    return if tokenScore < editScore then editScore else tokenScore;
  }
}
