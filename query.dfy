/**
 * `parseQuery`, the query-string reader of the balance endpoint, together with
 * the part of Java's `String.split` it relies on. Splitting on a one-character
 * separator yields the pieces between separators; when the separator occurs,
 * trailing empty pieces are then dropped, and when it does not, the result is
 * the whole string (even an empty one). A pair is kept only if splitting it on
 * `=` yields exactly two pieces; a later pair replaces an earlier one's value.
 */
module Query {
  import opened Wrappers

  /** Every piece between occurrences of `sep`, empty ones included. */
  function SplitAll(s: string, sep: char): (parts: seq<string>)
    ensures |parts| >= 1
    ensures forall i :: 0 <= i < |parts| ==> sep !in parts[i]
    decreases |s|
  {
    if s == [] then [[]]
    else if s[0] == sep then [[]] + SplitAll(s[1..], sep)
    else
      var rest := SplitAll(s[1..], sep);
      [[s[0]] + rest[0]] + rest[1..]
  }

  /** The pieces glued back together with `sep` between neighbours. */
  function Join(parts: seq<string>, sep: char): string
    decreases |parts|
  {
    if parts == [] then []
    else if |parts| == 1 then parts[0]
    else parts[0] + [sep] + Join(parts[1..], sep)
  }

  /** `n` empty strings. */
  function Empties(n: nat): seq<string> {
    seq(n, _ => [])
  }

  /** `n` copies of `c`. */
  function Repeat(c: char, n: nat): string {
    seq(n, _ => c)
  }

  /** Splitting loses nothing: joining the pieces gives the string back. */
  lemma {:induction false} JoinSplitAll(s: string, sep: char)
    ensures Join(SplitAll(s, sep), sep) == s
    decreases |s|
  {
    if s != [] {
      var rest := SplitAll(s[1..], sep);
      JoinSplitAll(s[1..], sep);
      if s[0] == sep {
        assert s == [sep] + s[1..];
      } else if |rest| > 1 {
        assert rest == [rest[0]] + rest[1..];
        assert s == [s[0]] + s[1..];
      } else {
        assert s == [s[0]] + s[1..];
      }
    }
  }

  /** A separator splits a string into the pieces of its left side followed by those of its right side. */
  lemma {:induction false} SplitAllAround(a: string, b: string, sep: char)
    ensures SplitAll(a + [sep] + b, sep) == SplitAll(a, sep) + SplitAll(b, sep)
    decreases |a|
  {
    if a == [] {
      assert a + [sep] + b == [sep] + b;
    } else {
      assert (a + [sep] + b)[1..] == a[1..] + [sep] + b;
      SplitAllAround(a[1..], b, sep);
    }
  }

  /** A string without the separator is one piece. */
  lemma {:induction false} SplitAllWhole(s: string, sep: char)
    requires sep !in s
    ensures SplitAll(s, sep) == [s]
    decreases |s|
  {
    if s != [] {
      assert sep !in s[1..] && s[0] != sep;
      SplitAllWhole(s[1..], sep);
      assert s == [s[0]] + s[1..];
    }
  }

  /**
   * Joining is undone by splitting: pieces free of the separator come back
   * unchanged, so splitting and joining are inverse.
   */
  lemma {:induction false} SplitAllJoin(parts: seq<string>, sep: char)
    requires parts != []
    requires forall i :: 0 <= i < |parts| ==> sep !in parts[i]
    ensures SplitAll(Join(parts, sep), sep) == parts
    decreases |parts|
  {
    if |parts| == 1 {
      SplitAllWhole(parts[0], sep);
    } else {
      SplitAllWhole(parts[0], sep);
      SplitAllJoin(parts[1..], sep);
      SplitAllAround(parts[0], Join(parts[1..], sep), sep);
    }
  }

  /** A run of separators is a run of empty pieces. */
  lemma {:induction false} SplitAllRepeat(sep: char, n: nat)
    ensures SplitAll(Repeat(sep, n), sep) == Empties(n + 1)
    decreases n
  {
    if n > 0 {
      assert Repeat(sep, n)[1..] == Repeat(sep, n - 1);
      SplitAllRepeat(sep, n - 1);
    }
  }

  /** Java's removal of trailing empty strings from a split result. */
  function DropTrailingEmpty(parts: seq<string>): (r: seq<string>)
    ensures |r| <= |parts| && r == parts[..|r|]
    ensures r == [] || r[|r| - 1] != []
    ensures forall i :: |r| <= i < |parts| ==> parts[i] == []
    decreases |parts|
  {
    if parts == [] || parts[|parts| - 1] != [] then parts
    else DropTrailingEmpty(parts[..|parts| - 1])
  }

  /** `s.split(sep)` for a separator that is not a regular-expression metacharacter. */
  function JavaSplit(s: string, sep: char): (parts: seq<string>)
    ensures forall i :: 0 <= i < |parts| ==> sep !in parts[i]
  {
    if sep !in s then [s] else DropTrailingEmpty(SplitAll(s, sep))
  }

  /** What `split` keeps plus the empty pieces it dropped is everything: the pieces still join back to the input. */
  lemma JavaSplitRecovers(s: string, sep: char)
    ensures forall i :: 0 <= i < |JavaSplit(s, sep)| ==> sep !in JavaSplit(s, sep)[i]
    ensures exists m: nat :: Join(JavaSplit(s, sep) + Empties(m), sep) == s
  {
    if sep !in s {
      assert JavaSplit(s, sep) + Empties(0) == [s];
    } else {
      var all := SplitAll(s, sep);
      var kept := JavaSplit(s, sep);
      assert all == kept + Empties(|all| - |kept|);
      JoinSplitAll(s, sep);
    }
  }

  /** Joining with one more piece at the end. */
  lemma {:induction false} JoinSnoc(parts: seq<string>, last: string, sep: char)
    requires parts != []
    ensures Join(parts + [last], sep) == Join(parts, sep) + [sep] + last
    decreases |parts|
  {
    if |parts| > 1 {
      assert (parts + [last])[1..] == parts[1..] + [last];
      JoinSnoc(parts[1..], last, sep);
    }
  }

  /** Trailing empty pieces join to trailing separators. */
  lemma {:induction false} JoinEmpties(parts: seq<string>, m: nat, sep: char)
    requires parts != []
    ensures Join(parts + Empties(m), sep) == Join(parts, sep) + Repeat(sep, m)
    decreases m
  {
    if m > 0 {
      assert parts + Empties(m) == (parts + Empties(m - 1)) + [[]];
      JoinEmpties(parts, m - 1, sep);
      JoinSnoc(parts + Empties(m - 1), [], sep);
      assert Repeat(sep, m) == Repeat(sep, m - 1) + [sep];
    } else {
      assert parts + Empties(m) == parts && Repeat(sep, m) == [];
    }
  }

  /** The key and value one `&`-separated piece contributes, if it splits on `=` into exactly two parts. */
  function Param(pair: string): (r: Option<(string, string)>)
    ensures r.Some? ==> '=' !in r.value.0 && '=' !in r.value.1 && r.value.1 != []
  {
    var kv := JavaSplit(pair, '=');
    if |kv| == 2 then Some((kv[0], kv[1])) else None
  }

  /**
   * A piece that is kept is a key without `=`, one `=`, a non-empty value
   * without `=`, and nothing after it but `=` signs.
   */
  lemma ParamSound(pair: string)
    requires Param(pair).Some?
    ensures var (k, v) := Param(pair).value;
            '=' !in k && '=' !in v && v != [] &&
            exists n: nat :: pair == k + ['='] + v + Repeat('=', n)
  {
    var all := SplitAll(pair, '=');
    var kv := JavaSplit(pair, '=');
    assert '=' in pair;
    var m := |all| - 2;
    assert all == [kv[0]] + [kv[1]] + Empties(m);
    JoinSplitAll(pair, '=');
    JoinEmpties([kv[0], kv[1]], m, '=');
    assert pair == kv[0] + ['='] + kv[1] + Repeat('=', m);
  }

  /** How such a piece splits: its key, its value, then one empty piece per trailing `=`. */
  lemma SplitPair(k: string, v: string, n: nat)
    requires '=' !in k && '=' !in v
    ensures SplitAll(k + ['='] + v + Repeat('=', n), '=') == [k, v] + Empties(n)
  {
    assert k + ['='] + v + Repeat('=', n) == k + ['='] + (v + Repeat('=', n));
    SplitAllAround(k, v + Repeat('=', n), '=');
    SplitAllWhole(k, '=');
    SplitAllWhole(v, '=');
    if n == 0 {
      assert v + Repeat('=', n) == v;
    } else {
      assert v + Repeat('=', n) == v + ['='] + Repeat('=', n - 1);
      SplitAllAround(v, Repeat('=', n - 1), '=');
      SplitAllRepeat('=', n - 1);
    }
  }

  /** Dropping trailing empties from pieces that end in a non-empty one removes exactly the added empties. */
  lemma DropTrailingEmpties(parts: seq<string>, m: nat)
    requires parts != [] && parts[|parts| - 1] != []
    ensures DropTrailingEmpty(parts + Empties(m)) == parts
  {
    var all := parts + Empties(m);
    var r := DropTrailingEmpty(all);
    assert all[|parts| - 1] != [];
    assert forall i :: |parts| <= i < |all| ==> all[i] == [];
    assert |r| == |parts|;
    assert r == all[..|parts|] == parts;
  }

  /** Conversely, every piece of that shape is kept with exactly that key and value. */
  lemma ParamComplete(k: string, v: string, n: nat)
    requires '=' !in k && '=' !in v && v != []
    ensures Param(k + ['='] + v + Repeat('=', n)) == Some((k, v))
  {
    var pair := k + ['='] + v + Repeat('=', n);
    SplitPair(k, v, n);
    assert pair[|k|] == '=';
    DropTrailingEmpties([k, v], n);
  }

  /** The map built from the pieces in order: a later piece overwrites an earlier one's key. */
  function Params(pairs: seq<string>): (params: map<string, string>)
    ensures forall k :: k in params ==> '=' !in k && '=' !in params[k] && params[k] != []
    decreases |pairs|
  {
    if pairs == [] then map[]
    else
      var earlier := Params(pairs[..|pairs| - 1]);
      match Param(pairs[|pairs| - 1])
      case Some((k, v)) => earlier[k := v]
      case None => earlier
  }

  /** `pair` is kept and contributes key `k`. */
  predicate Supplies(pair: string, k: string) {
    Param(pair).Some? && Param(pair).value.0 == k
  }

  /** Index of the last piece that supplies key `k`, or -1 if none does. */
  function LastSupplier(pairs: seq<string>, k: string): (i: int)
    ensures -1 <= i < |pairs|
    ensures i >= 0 ==> Supplies(pairs[i], k)
    ensures forall j :: i < j < |pairs| ==> !Supplies(pairs[j], k)
    decreases |pairs|
  {
    if pairs == [] then -1
    else if Supplies(pairs[|pairs| - 1], k) then |pairs| - 1
    else
      var earlier := pairs[..|pairs| - 1];
      assert forall j :: 0 <= j < |earlier| ==> earlier[j] == pairs[j];
      LastSupplier(earlier, k)
  }

  /**
   * A key is in the result exactly when some piece supplies it, and its value
   * is the one from the LAST piece that supplies it.
   */
  lemma {:induction false} ParamsSource(pairs: seq<string>, k: string)
    ensures k in Params(pairs) <==> LastSupplier(pairs, k) >= 0
    ensures k in Params(pairs) ==> Param(pairs[LastSupplier(pairs, k)]) == Some((k, Params(pairs)[k]))
    decreases |pairs|
  {
    if pairs != [] {
      var n := |pairs| - 1;
      var earlier := pairs[..n];
      if !Supplies(pairs[n], k) {
        ParamsSource(earlier, k);
        if LastSupplier(earlier, k) >= 0 {
          assert pairs[LastSupplier(earlier, k)] == earlier[LastSupplier(earlier, k)];
        }
      }
    }
  }

  /** The parameters of a query string; an absent or empty query has none. */
  function QueryParams(query: Option<string>): (params: map<string, string>)
    ensures query.None? || query.value == [] ==> params == map[]
    ensures forall k :: k in params ==> '=' !in k && '=' !in params[k] && params[k] != []
  {
    if query.None? || query.value == [] then map[] else Params(JavaSplit(query.value, '&'))
  }

  /** `parseQuery(query)`. */
  method ParseQuery(query: Option<string>) returns (params: map<string, string>)
    ensures params == QueryParams(query)
  {
    params := map[];
    if query.None? || query.value == [] {
      return;
    }
    var pairs := JavaSplit(query.value, '&');
    for i := 0 to |pairs|
      invariant params == Params(pairs[..i])
    {
      var kv := JavaSplit(pairs[i], '=');
      if |kv| == 2 {
        params := params[kv[0] := kv[1]];
      }
      assert pairs[..i + 1][..i] == pairs[..i];
    }
    assert pairs[..|pairs|] == pairs;
  }

  /** How individual pieces fare: `a=` and `=` are dropped, `=b` and `a=b=` are kept. */
  lemma PieceExamples()
    ensures Param("a=") == None
    ensures Param("=") == None
    ensures Param("a=b=c") == None
    ensures Param("=b") == Some(("", "b"))
    ensures Param("a=b=") == Some(("a", "b"))
  {
    ParamComplete("", "b", 0);
    assert "=b" == [] + ['='] + "b" + Repeat('=', 0);
    ParamComplete("a", "b", 1);
    assert "a=b=" == "a" + ['='] + "b" + Repeat('=', 1);
  }
}
