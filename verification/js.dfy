/**
  The few JavaScript primitives the login notifier relies on: values as they
  appear in template strings and `||` defaults, and the string operations
  `String.prototype.split` (one-character separator) and
  `String.prototype.trim`, plus `Array.prototype.join`, which serves only to
  specify `split`.
 */
module Js {

  /** A value read from a parsed JSON answer: a string field, or a missing one. */
  datatype JsValue = Undefined | Null | Str(s: string)

  /** JavaScript falsiness restricted to these values: a missing field, null or "". */
  predicate Falsy(v: JsValue) {
    v.Undefined? || v.Null? || v.s == ""
  }

  /** What `${v}` inserts into a template string. */
  function Render(v: JsValue): string {
    match v
    case Undefined => "undefined"
    case Null => "null"
    case Str(s) => s
  }

  /**
    `v || fallback` where the fallback is a string: the fallback stands in for
    a missing, null or empty value, so a non-empty fallback never leaves the
    result blank.
   */
  function OrElse(v: JsValue, fallback: string): (r: string)
    ensures Falsy(v) ==> r == fallback
    ensures r == fallback || r == Render(v)
    ensures fallback != "" ==> r != ""
  {
    if Falsy(v) then fallback else v.s
  }

  /** `prefix` is where `s` begins (`s.startsWith(prefix)`). */
  predicate StartsWith(s: string, prefix: string) {
    prefix <= s
  }

  /** The characters `trim` removes: ECMAScript WhiteSpace and LineTerminator. */
  predicate IsWhiteSpace(c: char) {
    || c == '\t' || c == '\n' || c == '\U{000B}' || c == '\U{000C}' || c == '\r' || c == ' '
    || c == '\U{00A0}' || c == '\U{1680}' || ('\U{2000}' <= c <= '\U{200A}')
    || c == '\U{2028}' || c == '\U{2029}' || c == '\U{202F}' || c == '\U{205F}'
    || c == '\U{3000}' || c == '\U{FEFF}'
  }

  predicate AllWhiteSpace(s: string) {
    forall i :: 0 <= i < |s| ==> IsWhiteSpace(s[i])
  }

  /** A string with no white space at either end. */
  predicate Trimmed(s: string) {
    s == [] || (!IsWhiteSpace(s[0]) && !IsWhiteSpace(s[|s| - 1]))
  }

  /** Drops leading white space: what remains is a suffix of `s`. */
  function TrimStart(s: string): (r: string)
    ensures |r| <= |s|
    ensures forall i :: 0 <= i < |r| ==> r[i] == s[|s| - |r| + i]
    ensures forall i :: 0 <= i < |s| - |r| ==> IsWhiteSpace(s[i])
    ensures r == [] || !IsWhiteSpace(r[0])
    decreases |s|
  {
    if |s| > 0 && IsWhiteSpace(s[0]) then TrimStart(s[1..]) else s
  }

  /** Drops trailing white space: what remains is a prefix of `s`. */
  function TrimEnd(s: string): (r: string)
    ensures |r| <= |s|
    ensures forall i :: 0 <= i < |r| ==> r[i] == s[i]
    ensures forall i :: |r| <= i < |s| ==> IsWhiteSpace(s[i])
    ensures r == [] || !IsWhiteSpace(r[|r| - 1])
    decreases |s|
  {
    if |s| > 0 && IsWhiteSpace(s[|s| - 1]) then TrimEnd(s[..|s| - 1]) else s
  }

  /** `s.trim()`: the result has no white space at either end and sits inside `s`. */
  function Trim(s: string): (r: string)
    ensures Trimmed(r)
    ensures |r| <= |s|
  {
    var t := TrimStart(s);
    var r := TrimEnd(t);
    assert r != [] ==> r[0] == t[0];
    r
  }

  /** `ps.join(sep)` for a one-character separator. */
  function Join(ps: seq<string>, sep: char): string
  {
    if |ps| == 0 then []
    else if |ps| == 1 then ps[0]
    else ps[0] + [sep] + Join(ps[1..], sep)
  }

  /** No piece holds the separator. */
  predicate SeparatorFree(ps: seq<string>, sep: char) {
    forall i :: 0 <= i < |ps| ==> sep !in ps[i]
  }

  /**
    `s.split(sep)` for a one-character separator: at least one piece (the empty
    string splits into one empty piece), none holds the separator, and joining
    the pieces back gives `s`.
   */
  function Split(s: string, sep: char): (r: seq<string>)
    ensures |r| >= 1
    ensures SeparatorFree(r, sep)
    ensures Join(r, sep) == s
    decreases |s|
  {
    if |s| == 0 then [""]
    else
      var rest := Split(s[1..], sep);
      if s[0] == sep then
        var r := [""] + rest;
        assert r[1..] == rest;
        r
      else
        var r := [[s[0]] + rest[0]] + rest[1..];
        assert r[1..] == rest[1..];
        r
  }

  /** Trimming only ever removes white space at the front. */
  lemma {:induction false} TrimStartSkips(pre: string, u: string)
    requires AllWhiteSpace(pre)
    requires u == [] || !IsWhiteSpace(u[0])
    ensures TrimStart(pre + u) == u
    decreases |pre|
  {
    if pre != [] {
      assert (pre + u)[1..] == pre[1..] + u;
      TrimStartSkips(pre[1..], u);
    } else {
      assert pre + u == u;
    }
  }

  /** Trimming only ever removes white space at the back. */
  lemma {:induction false} TrimEndSkips(u: string, post: string)
    requires AllWhiteSpace(post)
    requires u == [] || !IsWhiteSpace(u[|u| - 1])
    ensures TrimEnd(u + post) == u
    decreases |post|
  {
    if post != [] {
      var shorter := post[..|post| - 1];
      assert (u + post)[..|u + post| - 1] == u + shorter;
      TrimEndSkips(u, shorter);
    } else {
      assert u + post == u;
    }
  }

  /**
    `trim` undoes white-space padding: a string with no white space at its ends,
    padded with white space on either side, trims back to itself.
   */
  lemma TrimPadding(pre: string, t: string, post: string)
    requires AllWhiteSpace(pre) && AllWhiteSpace(post)
    requires Trimmed(t)
    ensures Trim(pre + t + post) == t
  {
    if t == [] {
      assert pre + t + post == (pre + post) + [];
      TrimStartSkips(pre + post, []);
    } else {
      assert pre + t + post == pre + (t + post);
      TrimStartSkips(pre, t + post);
      TrimEndSkips(t, post);
    }
  }

  /** `trim` is idempotent. */
  lemma TrimIdempotent(s: string)
    ensures Trim(Trim(s)) == Trim(s)
  {
    var t := Trim(s);
    assert [] + t + [] == t;
    TrimPadding([], t, []);
  }

  /**
    `split` inverts `join`: separator-free pieces, joined and split again,
    come back unchanged. With the ensures of Split this makes the two exact
    inverses.
   */
  lemma {:induction false} SplitJoin(ps: seq<string>, sep: char)
    requires |ps| >= 1 && SeparatorFree(ps, sep)
    ensures Split(Join(ps, sep), sep) == ps
    decreases |Join(ps, sep)|
  {
    var s := Join(ps, sep);
    if |ps| >= 2 {
      assert s == ps[0] + ([sep] + Join(ps[1..], sep));
    }
    if |s| == 0 {
      assert |ps| == 1;
    } else if s[0] == sep {
      assert |ps| >= 2;
      assert s[1..] == Join(ps[1..], sep);
      SplitJoin(ps[1..], sep);
      assert Split(s, sep) == [""] + ps[1..];
    } else {
      var head := ps[0];
      assert head != [];
      var qs := [head[1..]] + ps[1..];
      assert qs[1..] == ps[1..];
      assert SeparatorFree(qs, sep);
      if |ps| == 1 {
        assert Join(qs, sep) == s[1..];
      } else {
        assert Join(qs, sep) == head[1..] + [sep] + Join(ps[1..], sep);
        assert Join(qs, sep) == s[1..];
      }
      SplitJoin(qs, sep);
      assert [s[0]] + head[1..] == head;
      assert Split(s, sep) == [head] + ps[1..];
    }
  }

  /** Splitting after a separator-free first piece: that piece, then the split of the rest. */
  lemma SplitCons(a: string, b: string, sep: char)
    requires sep !in a
    ensures Split(a + [sep] + b, sep) == [a] + Split(b, sep)
  {
    var rest := Split(b, sep);
    var ps := [a] + rest;
    assert ps[1..] == rest;
    assert Join(ps, sep) == a + [sep] + b;
    SplitJoin(ps, sep);
  }
}
