/** The slice of HTTP that the handlers touch: header maps, status codes,
    header-value validity and the request's `Cookie` header. */
module Http {
  import opened Wrappers
  import Json

  /** `HeaderMap` with `insert` semantics: one value per (lower-case) name,
      a second insert replaces the first. */
  type HeaderMap = map<string, string>

  const Location: string := "location"
  const SetCookie: string := "set-cookie"
  const ContentType: string := "content-type"

  /** The headers a `Json(..)` response starts with. */
  const JsonHeaders: HeaderMap := map[ContentType := "application/json"]

  const StatusOk: nat := 200
  const StatusSeeOther: nat := 303
  const StatusBadRequest: nat := 400
  const StatusUnauthorized: nat := 401
  const StatusInternalServerError: nat := 500

  /** A response as the framework sends it. */
  datatype Response = Response(status: nat, headers: HeaderMap, body: Json.Json)

  /** What `HeaderValue::from_str` accepts: every byte is a tab or at least a
      space and not DEL. Non-ASCII characters encode to bytes >= 0x80, which
      are accepted, so the test can be made per character. */
  predicate ValidHeaderChar(c: char) {
    c == '\t' || (32 <= c as int && c as int != 127)
  }

  predicate ValidHeaderValue(s: string) {
    forall i :: 0 <= i < |s| ==> ValidHeaderChar(s[i])
  }

  lemma ValidHeaderValueConcat(a: string, b: string)
    ensures ValidHeaderValue(a + b) <==> ValidHeaderValue(a) && ValidHeaderValue(b)
  {
    if ValidHeaderValue(a + b) {
      forall i | 0 <= i < |a| ensures ValidHeaderChar(a[i]) { assert (a + b)[i] == a[i]; }
      forall i | 0 <= i < |b| ensures ValidHeaderChar(b[i]) { assert (a + b)[|a| + i] == b[i]; }
    }
  }

  /** The request's `Cookie` header as the `TypedHeader<headers::Cookie>`
      extractor sees it: absent, present but unreadable, or the list of
      `name=value` pairs in header order. */
  datatype CookieHeader = Missing | Unreadable | Present(pairs: seq<(string, string)>)

  /** `Cookie::get(name)`: the value of the first pair with that name. */
  function CookieGet(pairs: seq<(string, string)>, name: string): (r: Option<string>)
    ensures r.Some? <==> exists i :: 0 <= i < |pairs| && pairs[i].0 == name
    ensures r.Some? ==> exists i :: 0 <= i < |pairs| && pairs[i] == (name, r.value) && forall j :: 0 <= j < i ==> pairs[j].0 != name
  {
    if pairs == [] then None
    else if pairs[0].0 == name then Some(pairs[0].1)
    else
      var r := CookieGet(pairs[1..], name);
      CookieGetFirstTail(pairs, name, r);
      r
  }

  /** The first pair with the name in `pairs[1..]` is the first in `pairs`
      when the head has another name. */
  lemma CookieGetFirstTail(pairs: seq<(string, string)>, name: string, r: Option<string>)
    requires |pairs| > 0 && pairs[0].0 != name
    requires r.Some? ==> exists i :: 0 <= i < |pairs[1..]| && pairs[1..][i] == (name, r.value) && forall j :: 0 <= j < i ==> pairs[1..][j].0 != name
    ensures r.Some? ==> exists i :: 0 <= i < |pairs| && pairs[i] == (name, r.value) && forall j :: 0 <= j < i ==> pairs[j].0 != name
  {
    if r.Some? {
      var i :| 0 <= i < |pairs[1..]| && pairs[1..][i] == (name, r.value) && forall j :: 0 <= j < i ==> pairs[1..][j].0 != name;
      assert pairs[i + 1] == (name, r.value);
      forall j | 0 <= j < i + 1 ensures pairs[j].0 != name {
        if j > 0 { assert pairs[j] == pairs[1..][j - 1]; }
      }
    }
  }

  /** The pieces of `s` between occurrences of `sep`, as `str::split` gives
      them: one piece more than there are separators. This is how a reader
      of a `Set-Cookie` value or a query string takes it apart. */
  function SplitOn(s: string, sep: char): (parts: seq<string>)
    ensures |parts| >= 1
    decreases |s|
  {
    if |s| == 0 then [""]
    else if s[0] == sep then [""] + SplitOn(s[1..], sep)
    else
      var rest := SplitOn(s[1..], sep);
      [[s[0]] + rest[0]] + rest[1..]
  }

  /** A string without the separator is one piece. */
  lemma {:induction false} SplitOnNone(a: string, sep: char)
    requires sep !in a
    ensures SplitOn(a, sep) == [a]
    decreases |a|
  {
    if |a| > 0 {
      assert sep !in a[1..];
      SplitOnNone(a[1..], sep);
      assert [a[0]] + a[1..] == a;
    }
  }

  /** Splitting `a`, the separator and `b`, where `a` holds no separator,
      gives `a` and then the pieces of `b`. */
  lemma {:induction false} SplitOnConcat(a: string, sep: char, b: string)
    requires sep !in a
    ensures SplitOn(a + [sep] + b, sep) == [a] + SplitOn(b, sep)
    decreases |a|
  {
    if |a| == 0 {
      assert a + [sep] + b == [sep] + b;
      assert ([sep] + b)[1..] == b;
    } else {
      var s := a + [sep] + b;
      assert s[0] == a[0] && s[0] != sep;
      assert s[1..] == a[1..] + [sep] + b;
      assert sep !in a[1..];
      SplitOnConcat(a[1..], sep, b);
      assert [a[0]] + a[1..] == a;
    }
  }

  /** The pieces joined back with `sep` between them. */
  function JoinOn(parts: seq<string>, sep: char): (s: string)
    requires |parts| >= 1
    ensures |parts| == 1 ==> s == parts[0]
    ensures |parts| > 1 ==> s == parts[0] + [sep] + JoinOn(parts[1..], sep)
  {
    if |parts| == 1 then parts[0] else parts[0] + [sep] + JoinOn(parts[1..], sep)
  }

  /** Splitting undoes joining when no piece holds the separator. */
  lemma {:induction false} SplitJoin(parts: seq<string>, sep: char)
    requires |parts| >= 1
    requires forall i :: 0 <= i < |parts| ==> sep !in parts[i]
    ensures SplitOn(JoinOn(parts, sep), sep) == parts
    decreases |parts|
  {
    if |parts| == 1 {
      SplitOnNone(parts[0], sep);
    } else {
      assert forall i :: 0 <= i < |parts[1..]| ==> parts[1..][i] == parts[i + 1];
      SplitJoin(parts[1..], sep);
      SplitOnConcat(parts[0], sep, JoinOn(parts[1..], sep));
      assert [parts[0]] + parts[1..] == parts;
    }
  }

  /** The three parts of a concatenation are its slices at the parts'
      lengths. */
  lemma ConcatSlices(a: string, b: string, c: string)
    ensures (a + b + c)[..|a|] == a
    ensures (a + b + c)[|a|..|a| + |b|] == b
    ensures (a + b + c)[|a| + |b|..] == c
  {
  }
}
