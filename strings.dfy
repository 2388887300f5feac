/** String operations the handler relies on: splitting the message body on a
    single separator character, as JavaScript's `String.prototype.split` does
    with a one-character string, and testing for a prefix. */
module Strings {

  /** `s` begins with `prefix` (JavaScript's `startsWith`). */
  predicate StartsWith(s: string, prefix: string) {
    |prefix| <= |s| && s[..|prefix|] == prefix
  }

  /** `s` starts with `prefix` exactly when some text completes `prefix` to `s`. */
  lemma StartsWithAppend(s: string, prefix: string)
    ensures StartsWith(s, prefix) <==> exists rest :: s == prefix + rest
  {
    if StartsWith(s, prefix) {
      assert s == prefix + s[|prefix|..];
    }
    if exists rest :: s == prefix + rest {
      var rest :| s == prefix + rest;
      assert s[..|prefix|] == prefix;
    }
  }

  /** Splits `s` at every occurrence of `sep`. Empty fields are kept, so
      `n` separators always give `n + 1` fields and the empty string gives
      one empty field. */
  function Split(s: string, sep: char): (r: seq<string>)
    ensures |r| >= 1
    decreases |s|
  {
    if s == [] then [""]
    else
      var rest := Split(s[1..], sep);
      if s[0] == sep then [""] + rest
      else [[s[0]] + rest[0]] + rest[1..]
  }

  /** Number of occurrences of `c` in `s`. */
  function Occurrences(s: string, c: char): nat
    decreases |s|
  {
    if s == [] then 0
    else (if s[0] == c then 1 else 0) + Occurrences(s[1..], c)
  }

  /** `n` separators give `n + 1` fields, none of which holds the separator. */
  lemma {:induction false} SplitFields(s: string, sep: char)
    ensures |Split(s, sep)| == Occurrences(s, sep) + 1
    ensures forall k :: 0 <= k < |Split(s, sep)| ==> sep !in Split(s, sep)[k]
    decreases |s|
  {
    if s != [] {
      SplitFields(s[1..], sep);
      var rest := Split(s[1..], sep);
      if s[0] != sep {
        var r := Split(s, sep);
        assert r == [[s[0]] + rest[0]] + rest[1..];
        forall k | 0 <= k < |r| ensures sep !in r[k] {
          if k > 0 {
            assert r[k] == rest[k];
          }
        }
      }
    }
  }

  /** Puts the fields back together with `sep` between consecutive ones. */
  function Join(parts: seq<string>, sep: char): string
    decreases |parts|
  {
    if parts == [] then ""
    else if |parts| == 1 then parts[0]
    else parts[0] + [sep] + Join(parts[1..], sep)
  }

  /** Splitting loses nothing: joining the fields gives back the text. */
  lemma {:induction false} JoinSplit(s: string, sep: char)
    ensures Join(Split(s, sep), sep) == s
    decreases |s|
  {
    if s != [] {
      var rest := Split(s[1..], sep);
      JoinSplit(s[1..], sep);
      if s[0] == sep {
        calc {
          Join([""] + rest, sep);
          { assert ([""] + rest)[1..] == rest; }
          "" + [sep] + Join(rest, sep);
          [s[0]] + s[1..];
          s;
        }
      } else {
        var parts := [[s[0]] + rest[0]] + rest[1..];
        if |rest| == 1 {
          assert Join(rest, sep) == rest[0];
          assert Join(parts, sep) == [s[0]] + rest[0];
        } else {
          assert Join(rest, sep) == rest[0] + [sep] + Join(rest[1..], sep);
          assert parts[1..] == rest[1..];
          assert Join(parts, sep) == [s[0]] + rest[0] + [sep] + Join(rest[1..], sep);
        }
        assert s == [s[0]] + s[1..];
      }
    }
  }

  /** Joining fields that do not contain `sep` and splitting again gives the
      same fields back. */
  lemma {:induction false} SplitJoin(parts: seq<string>, sep: char)
    requires |parts| >= 1
    requires forall k :: 0 <= k < |parts| ==> sep !in parts[k]
    ensures Split(Join(parts, sep), sep) == parts
    decreases |parts|, |parts[0]|
  {
    var p := parts[0];
    if p == [] {
      if |parts| > 1 {
        var tail := Join(parts[1..], sep);
        assert Join(parts, sep) == [sep] + tail;
        assert ([sep] + tail)[1..] == tail;
        SplitJoin(parts[1..], sep);
        assert parts == [""] + parts[1..];
      }
    } else {
      var shorter := [p[1..]] + parts[1..];
      assert sep !in shorter[0] by {
        forall k | 0 <= k < |p[1..]| ensures p[1..][k] != sep { assert p[1..][k] == p[k + 1]; }
      }
      assert forall k :: 0 <= k < |shorter| ==> sep !in shorter[k];
      SplitJoin(shorter, sep);
      var j := Join(parts, sep);
      if |parts| == 1 {
        assert j == p;
        assert Join(shorter, sep) == p[1..];
      } else {
        assert shorter[1..] == parts[1..];
        assert Join(shorter, sep) == p[1..] + [sep] + Join(parts[1..], sep);
        assert j == p + [sep] + Join(parts[1..], sep);
      }
      assert j[0] == p[0] && j[0] != sep;
      assert j[1..] == Join(shorter, sep);
      assert [p[0]] + p[1..] == p;
      assert parts == [[p[0]] + shorter[0]] + shorter[1..];
    }
  }

  /** Split of a text given by its first character and the rest. */
  lemma SplitCons(c: char, t: string, sep: char)
    ensures Split([c] + t, sep) ==
      if c == sep then [""] + Split(t, sep) else [[c] + Split(t, sep)[0]] + Split(t, sep)[1..]
  {
    assert ([c] + t)[0] == c && ([c] + t)[1..] == t;
  }

  /** Splitting at a separator splits the two sides independently. */
  lemma {:induction false} SplitAround(u: string, v: string, sep: char)
    ensures Split(u + [sep] + v, sep) == Split(u, sep) + Split(v, sep)
    decreases |u|
  {
    if u == [] {
      assert u + [sep] + v == [sep] + v;
      SplitCons(sep, v, sep);
    } else {
      var c, t := u[0], u[1..];
      assert u == [c] + t;
      assert u + [sep] + v == [c] + (t + [sep] + v);
      SplitAround(t, v, sep);
      SplitAroundCons(c, t, v, sep);
    }
  }

  lemma SplitAroundCons(c: char, t: string, v: string, sep: char)
    requires Split(t + [sep] + v, sep) == Split(t, sep) + Split(v, sep)
    ensures Split([c] + (t + [sep] + v), sep) == Split([c] + t, sep) + Split(v, sep)
  {
    SplitCons(c, t + [sep] + v, sep);
    SplitCons(c, t, sep);
    ConsFieldShape(c == sep, [c], Split(t + [sep] + v, sep), Split(t, sep), Split(v, sep),
      Split([c] + (t + [sep] + v), sep), Split([c] + t, sep));
  }

  /** Prepending a character to the first field (or a new empty field) commutes with appending fields. */
  lemma ConsFieldShape(isSep: bool, head: string, whole: seq<string>, left: seq<string>, right: seq<string>,
                       consed: seq<string>, consedLeft: seq<string>)
    requires |left| >= 1 && whole == left + right
    requires consed == (if isSep then [""] + whole else [head + whole[0]] + whole[1..])
    requires consedLeft == (if isSep then [""] + left else [head + left[0]] + left[1..])
    ensures consed == consedLeft + right
  {
    if isSep {
      PrependField("", left, right);
    } else {
      assert whole[0] == left[0] && whole[1..] == left[1..] + right;
      PrependField(head + left[0], left[1..], right);
    }
  }

  lemma PrependField(f: string, left: seq<string>, right: seq<string>)
    ensures [f] + (left + right) == ([f] + left) + right
  {
  }

  /** A text is cut unambiguously at the first occurrence of a separator
      that the part before it does not contain. */
  lemma CutAtFirst(a: string, x: string, b: string, y: string, sep: char)
    requires sep !in a && sep !in b
    requires a + [sep] + x == b + [sep] + y
    ensures a == b && x == y
  {
    SplitAround(a, x, sep);
    SplitAround(b, y, sep);
    SplitJoin([a], sep);
    SplitJoin([b], sep);
    assert [a] + Split(x, sep) == [b] + Split(y, sep);
    assert Split(x, sep) == ([a] + Split(x, sep))[1..];
    assert Split(y, sep) == ([b] + Split(y, sep))[1..];
    JoinSplit(x, sep);
    JoinSplit(y, sep);
  }
}
