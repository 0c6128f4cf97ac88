/**
 * The string operations of the JavaScript standard library that the
 * converter uses: a global single-character `replace`, `Array.join` and
 * `lastIndexOf`.
 */
module Text {

  /** `s.replace(/c/g, rep)`: every occurrence of `c` becomes `rep`,
      everything else is kept in order. */
  function ReplaceAll(s: string, c: char, rep: string): (r: string)
    ensures c !in rep ==> c !in r
    ensures c !in s ==> r == s
  {
    if s == [] then []
    else (if s[0] == c then rep else [s[0]]) + ReplaceAll(s[1..], c, rep)
  }

  lemma {:induction false} ReplaceAllAppend(a: string, b: string, c: char, rep: string)
    ensures ReplaceAll(a + b, c, rep) == ReplaceAll(a, c, rep) + ReplaceAll(b, c, rep)
  {
    if a == [] {
      assert a + b == b;
    } else {
      assert (a + b)[0] == a[0];
      assert (a + b)[1..] == a[1..] + b;
      ReplaceAllAppend(a[1..], b, c, rep);
    }
  }

  /** A character that is neither replaced nor introduced stays absent. */
  lemma {:induction false} ReplaceAllKeepsAbsent(s: string, c: char, rep: string, d: char)
    requires d !in s && d !in rep
    ensures d !in ReplaceAll(s, c, rep)
  {
    if s != [] {
      ReplaceAllKeepsAbsent(s[1..], c, rep, d);
    }
  }

  /** Replacing one character by one character works position by position. */
  lemma {:induction false} ReplaceCharAt(s: string, c: char, d: char)
    ensures |ReplaceAll(s, c, [d])| == |s|
    ensures forall i :: 0 <= i < |s| ==>
      ReplaceAll(s, c, [d])[i] == if s[i] == c then d else s[i]
  {
    if s != [] {
      ReplaceCharAt(s[1..], c, d);
      var r := ReplaceAll(s, c, [d]);
      assert r == [if s[0] == c then d else s[0]] + ReplaceAll(s[1..], c, [d]);
      forall i | 0 <= i < |s|
        ensures r[i] == if s[i] == c then d else s[i]
      {
        if i > 0 {
          assert r[i] == ReplaceAll(s[1..], c, [d])[i - 1];
          assert s[i] == s[1..][i - 1];
        }
      }
    }
  }

  /** `parts.join(sep)`. */
  function Join(parts: seq<string>, sep: string): (r: string)
    ensures parts == [] ==> r == ""
    ensures |parts| == 1 ==> r == parts[0]
  {
    if parts == [] then ""
    else if |parts| == 1 then parts[0]
    else parts[0] + sep + Join(parts[1..], sep)
  }

  /** Joining one more part adds the separator and the part at the end. */
  lemma {:induction false} JoinSnoc(parts: seq<string>, x: string, sep: string)
    requires parts != []
    ensures Join(parts + [x], sep) == Join(parts, sep) + sep + x
  {
    if |parts| == 1 {
      assert parts + [x] == [parts[0], x];
      assert [parts[0], x][1..] == [x];
    } else {
      assert (parts + [x])[1..] == parts[1..] + [x];
      JoinSnoc(parts[1..], x, sep);
    }
  }

  /** With the empty separator, joining distributes over concatenation. */
  lemma {:induction false} JoinEmptyAppend(a: seq<string>, b: seq<string>)
    ensures Join(a + b, "") == Join(a, "") + Join(b, "")
  {
    if a == [] {
      assert a + b == b;
    } else if |a| == 1 {
      if b != [] {
        assert (a + b)[1..] == b;
      } else {
        assert a + b == a;
      }
    } else {
      assert (a + b)[1..] == a[1..] + b;
      JoinEmptyAppend(a[1..], b);
    }
  }

  /** Concatenation regroups freely. */
  lemma AppendAssoc<T>(a: seq<T>, b: seq<T>, c: seq<T>)
    ensures a + b + c == a + (b + c)
  {
  }

  /** `s.lastIndexOf(c)`: the last position holding `c`, or -1. */
  function LastIndexOf(s: string, c: char): (r: int)
    ensures -1 <= r < |s|
    ensures r >= 0 ==> s[r] == c
    ensures forall k :: r < k < |s| ==> s[k] != c
  {
    if s == [] then -1
    else if s[|s| - 1] == c then |s| - 1
    else LastIndexOf(s[..|s| - 1], c)
  }
}
