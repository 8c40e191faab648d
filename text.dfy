/** The two JavaScript string built-ins the core relies on: `split` and `join`
    with a one-character separator. */
module Text {

  /** `s.split(sep)` for a one-character separator: the pieces between the
      occurrences of `sep`, left to right; the empty string splits into `[""]`. */
  function Split(s: string, sep: char): (r: seq<string>)
    ensures |r| >= 1
    ensures forall k :: 0 <= k < |r| ==> sep !in r[k]
    decreases |s|
  {
    if s == [] then [[]]
    else
      var rest := Split(s[1..], sep);
      if s[0] == sep then [[]] + rest
      else [[s[0]] + rest[0]] + rest[1..]
  }

  /** `parts.join(sep)`. */
  function Join(parts: seq<string>, sep: char): string
  {
    if parts == [] then []
    else if |parts| == 1 then parts[0]
    else parts[0] + [sep] + Join(parts[1..], sep)
  }

  /** Splitting at a separator splits each side on its own. */
  lemma {:induction false} SplitAppend(a: string, b: string, sep: char)
    ensures Split(a + [sep] + b, sep) == Split(a, sep) + Split(b, sep)
    decreases |a|
  {
    if a == [] {
      assert a + [sep] + b == [sep] + b;
      assert ([sep] + b)[1..] == b;
    } else {
      assert (a + [sep] + b)[1..] == a[1..] + [sep] + b;
      SplitAppend(a[1..], b, sep);
    }
  }

  /** A string without the separator is a single piece. */
  lemma {:induction false} SplitSingle(t: string, sep: char)
    requires sep !in t
    ensures Split(t, sep) == [t]
    decreases |t|
  {
    if t != [] {
      assert t[1..] == t[|t| - |t[1..]|..];
      SplitSingle(t[1..], sep);
      assert [t[0]] + t[1..] == t;
    }
  }

  /** `s.split(sep).join(sep)` gives `s` back. */
  lemma {:induction false} JoinSplit(s: string, sep: char)
    ensures Join(Split(s, sep), sep) == s
    decreases |s|
  {
    if s != [] {
      JoinSplit(s[1..], sep);
      var rest := Split(s[1..], sep);
      if s[0] == sep {
        assert Join([[]] + rest, sep) == [] + [sep] + Join(rest, sep);
      } else if |rest| == 1 {
        assert s == [s[0]] + rest[0];
      } else {
        var r := [[s[0]] + rest[0]] + rest[1..];
        assert r[1..] == rest[1..];
        assert Join(rest, sep) == rest[0] + [sep] + Join(rest[1..], sep);
      }
    }
  }

  /** Joining pieces that do not contain the separator and splitting again gives
      the pieces back. */
  lemma {:induction false} SplitJoin(parts: seq<string>, sep: char)
    requires |parts| >= 1
    requires forall k :: 0 <= k < |parts| ==> sep !in parts[k]
    ensures Split(Join(parts, sep), sep) == parts
    decreases |parts|
  {
    SplitSingle(parts[0], sep);
    if |parts| > 1 {
      SplitJoin(parts[1..], sep);
      SplitAppend(parts[0], Join(parts[1..], sep), sep);
      assert [parts[0]] + parts[1..] == parts;
    }
  }

  /** Joining one more piece appends the separator and the piece. */
  lemma {:induction false} JoinPush(parts: seq<string>, last: string, sep: char)
    requires |parts| >= 1
    ensures Join(parts + [last], sep) == Join(parts, sep) + [sep] + last
    decreases |parts|
  {
    var all := parts + [last];
    assert all[1..] == parts[1..] + [last];
    if |parts| > 1 {
      JoinPush(parts[1..], last, sep);
    } else {
      assert all[1..] == [last];
    }
  }
}
