/**
 The text layer of the cookies: splitting and joining, and the frozen reading of a `Cookie` header
 (src/auth/cookie.rs, `find_sealed_cookie`).
 */
module CookieText {
  import opened Wrappers

  predicate Free(s: string, c: char)
  {
    forall i | 0 <= i < |s| :: s[i] != c
  }

  /** `str::split`: at least one part. */
  function Split(s: string, sep: char): (parts: seq<string>)
    ensures |parts| >= 1
    ensures forall i | 0 <= i < |parts| :: Free(parts[i], sep)
  {
    if s == "" then [""]
    else
      var rest := Split(s[1..], sep);
      if s[0] == sep then [""] + rest else [[s[0]] + rest[0]] + rest[1..]
  }

  function Join(parts: seq<string>, sep: char): string
    requires |parts| >= 1
  {
    if |parts| == 1 then parts[0] else parts[0] + [sep] + Join(parts[1..], sep)
  }

  /** `str::split_once`: at the first separator. */
  function SplitOnce(s: string, sep: char): Option<(string, string)>
  {
    if s == "" then None
    else if s[0] == sep then Some(("", s[1..]))
    else
      match SplitOnce(s[1..], sep)
      case None => None
      case Some((a, b)) => Some(([s[0]] + a, b))
  }

  /** Unicode's White_Space, which `str::trim` removes. */
  predicate Blank(c: char)
  {
    var u := c as int;
    || 0x09 <= u <= 0x0D || u == 0x20 || u == 0x85 || u == 0xA0 || u == 0x1680 || 0x2000 <= u <= 0x200A
    || u == 0x2028 || u == 0x2029 || u == 0x202F || u == 0x205F || u == 0x3000
  }

  function TrimStart(s: string): string
  {
    if s != "" && Blank(s[0]) then TrimStart(s[1..]) else s
  }

  function TrimEnd(s: string): string
  {
    if s != "" && Blank(s[|s| - 1]) then TrimEnd(s[..|s| - 1]) else s
  }

  function Trim(s: string): string { TrimEnd(TrimStart(s)) }

  /** The value of a segment, when it is a cookie of this name. */
  function Named(segment: string, name: string): Option<string>
  {
    var s := Trim(segment);
    if s == "" then None
    else
      match SplitOnce(s, '=')
      case None => None
      case Some((n, v)) => if n == name then Some(v) else None
  }

  function FirstNamed(segments: seq<string>, name: string): Option<string>
  {
    if segments == [] then None
    else if Named(segments[0], name).Some? then Named(segments[0], name)
    else FirstNamed(segments[1..], name)
  }

  /** The value of the first cookie of this name in a raw header. */
  function FindValue(header: string, name: string): Option<string>
  {
    FirstNamed(Split(header, ';'), name)
  }

  // ---------------------------------------------------------------------------------------------
  // Round trips
  // ---------------------------------------------------------------------------------------------

  lemma {:induction false} SplitPrefix(head: string, tail: string, sep: char)
    requires Free(head, sep)
    ensures Split(head + [sep] + tail, sep) == [head] + Split(tail, sep)
  {
    var s := head + [sep] + tail;
    if head == "" {
      assert s[1..] == tail;
    } else {
      assert s[1..] == head[1..] + [sep] + tail;
      SplitPrefix(head[1..], tail, sep);
      assert [s[0]] + head[1..] == head;
    }
  }

  lemma {:induction false} SplitFree(s: string, sep: char)
    requires Free(s, sep)
    ensures Split(s, sep) == [s]
  {
    if s != "" {
      SplitFree(s[1..], sep);
      assert [s[0]] + s[1..] == s;
    }
  }

  /** Joining then splitting gives the parts back. */
  lemma {:induction false} SplitOfJoin(parts: seq<string>, sep: char)
    requires |parts| >= 1 && forall i | 0 <= i < |parts| :: Free(parts[i], sep)
    ensures Split(Join(parts, sep), sep) == parts
  {
    if |parts| == 1 {
      SplitFree(parts[0], sep);
    } else {
      SplitOfJoin(parts[1..], sep);
      SplitPrefix(parts[0], Join(parts[1..], sep), sep);
    }
  }

  /** Splitting then joining gives the text back. */
  lemma {:induction false} JoinOfSplit(s: string, sep: char)
    ensures Join(Split(s, sep), sep) == s
  {
    if s != "" {
      JoinOfSplit(s[1..], sep);
      var rest := Split(s[1..], sep);
      if s[0] == sep {
        assert ([""] + rest)[1..] == rest;
      } else if |rest| > 1 {
        assert ([[s[0]] + rest[0]] + rest[1..])[1..] == rest[1..];
      }
    }
  }

  /** `split_once` is the exact inverse of putting a separator after a part free of it. */
  lemma {:induction false} SplitOnceExact(s: string, sep: char)
    ensures SplitOnce(s, sep).None? <==> Free(s, sep)
    ensures SplitOnce(s, sep).Some? ==>
              var (a, b) := SplitOnce(s, sep).value; Free(a, sep) && s == a + [sep] + b
  {
    if s != "" {
      SplitOnceExact(s[1..], sep);
    }
  }

  lemma {:induction false} SplitOnceOfPair(a: string, b: string, sep: char)
    requires Free(a, sep)
    ensures SplitOnce(a + [sep] + b, sep) == Some((a, b))
  {
    var s := a + [sep] + b;
    if a == "" {
      assert s[1..] == b;
    } else {
      assert s[1..] == a[1..] + [sep] + b;
      SplitOnceOfPair(a[1..], b, sep);
      assert [s[0]] + a[1..] == a;
    }
  }

  // ---------------------------------------------------------------------------------------------
  // Blanks
  // ---------------------------------------------------------------------------------------------

  predicate AllBlank(s: string)
  {
    forall i | 0 <= i < |s| :: Blank(s[i])
  }

  lemma {:induction false} TrimStartStrips(s: string) returns (before: string)
    ensures AllBlank(before) && s == before + TrimStart(s)
    ensures TrimStart(s) != "" ==> !Blank(TrimStart(s)[0])
  {
    before := "";
    if s != "" && Blank(s[0]) {
      var rest := TrimStartStrips(s[1..]);
      before := [s[0]] + rest;
    }
  }

  lemma {:induction false} TrimEndStrips(s: string) returns (after: string)
    ensures AllBlank(after) && s == TrimEnd(s) + after
    ensures TrimEnd(s) != "" ==> !Blank(TrimEnd(s)[|TrimEnd(s)| - 1])
  {
    after := "";
    if s != "" && Blank(s[|s| - 1]) {
      var rest := TrimEndStrips(s[..|s| - 1]);
      after := rest + [s[|s| - 1]];
    }
  }

  /** `str::trim` takes the blanks off both ends, all of them and nothing else. */
  lemma TrimStrips(s: string)
    ensures exists before, after :: AllBlank(before) && AllBlank(after) && s == before + Trim(s) + after
    ensures Trim(s) != "" ==> !Blank(Trim(s)[0]) && !Blank(Trim(s)[|Trim(s)| - 1])
  {
    var before := TrimStartStrips(s);
    var after := TrimEndStrips(TrimStart(s));
    assert s == before + Trim(s) + after;
    if Trim(s) != "" {
      assert TrimStart(s)[0] == Trim(s)[0];
    }
  }

  /** What is trimmed to nothing is all blanks. */
  lemma TrimsToNothing(s: string)
    ensures Trim(s) == "" <==> AllBlank(s)
  {
    TrimStrips(s);
    var before, after :| AllBlank(before) && AllBlank(after) && s == before + Trim(s) + after;
    if Trim(s) != "" {
      assert s[|before|] == Trim(s)[0];
    }
  }

  // ---------------------------------------------------------------------------------------------
  // Reading a header
  // ---------------------------------------------------------------------------------------------

  /** The header's segment number `at`, blanks aside, is the pair `name=value`, and no earlier one is a
      pair of that name. Later ones may be. */
  ghost predicate FirstPair(segments: seq<string>, at: nat, name: string, value: string)
  {
    && at < |segments| && Trim(segments[at]) == name + "=" + value
    && (forall i | 0 <= i < |segments| :: Free(segments[i], ';'))
    && (forall i, other: string | 0 <= i < at :: Trim(segments[i]) != name + "=" + other)
  }

  /** A segment is a cookie of the name when, blanks aside, it is the name, `=` and the value. */
  lemma NamedIsPair(segment: string, name: string, value: string)
    requires Free(name, '=')
    ensures Named(segment, name) == Some(value) <==> Trim(segment) == name + "=" + value
  {
    var s := Trim(segment);
    assert name + "=" + value == name + ['='] + value;
    SplitOnceOfPair(name, value, '=');
    SplitOnceExact(s, '=');
    if Named(segment, name) == Some(value) {
      assert s == name + ['='] + value;
    }
    if s == name + "=" + value {
      assert s[|name|] == '=';
    }
  }

  lemma {:induction false} FirstNamedIsAt(segments: seq<string>, at: nat, name: string)
    requires at < |segments| && Named(segments[at], name).Some?
    requires forall i | 0 <= i < at :: Named(segments[i], name).None?
    ensures FirstNamed(segments, name) == Named(segments[at], name)
  {
    if at > 0 {
      FirstNamedIsAt(segments[1..], at - 1, name);
    }
  }

  /** A pair that comes first among its name, in any header, is read back whole: padding signs in
      the value included, whatever the other segments hold. */
  lemma PairIsFound(segments: seq<string>, at: nat, name: string, value: string)
    requires FirstPair(segments, at, name, value) && Free(name, '=')
    ensures FindValue(Join(segments, ';'), name) == Some(value)
  {
    SplitOfJoin(segments, ';');
    NamedIsPair(segments[at], name, value);
    forall i | 0 <= i < at ensures Named(segments[i], name).None? {
      if Named(segments[i], name).Some? {
        NamedIsPair(segments[i], name, Named(segments[i], name).value);
      }
    }
    FirstNamedIsAt(segments, at, name);
  }

  lemma {:induction false} FirstNamedIsSomewhere(segments: seq<string>, name: string) returns (at: nat)
    requires FirstNamed(segments, name).Some?
    ensures at < |segments| && Named(segments[at], name) == FirstNamed(segments, name)
    ensures forall i | 0 <= i < at :: Named(segments[i], name).None?
  {
    if Named(segments[0], name).Some? {
      at := 0;
    } else {
      var k := FirstNamedIsSomewhere(segments[1..], name);
      at := k + 1;
      forall i | 0 <= i < at ensures Named(segments[i], name).None? {
        if i > 0 {
          assert segments[i] == segments[1..][i - 1];
        }
      }
    }
  }

  /** What is read from a raw header is the value of the first pair of the name among its segments. */
  lemma FoundIsFirstPair(header: string, name: string, value: string)
    requires Free(name, '=')
    ensures FindValue(header, name) == Some(value) <==>
            exists at :: FirstPair(Split(header, ';'), at, name, value)
  {
    var segments := Split(header, ';');
    if FindValue(header, name) == Some(value) {
      var at := FirstNamedIsSomewhere(segments, name);
      NamedIsPair(segments[at], name, value);
      forall i, other: string | 0 <= i < at ensures Trim(segments[i]) != name + "=" + other {
        NamedIsPair(segments[i], name, other);
      }
      assert FirstPair(segments, at, name, value);
    }
    if exists at :: FirstPair(segments, at, name, value) {
      var at :| FirstPair(segments, at, name, value);
      PairIsFound(segments, at, name, value);
      JoinOfSplit(header, ';');
    }
  }
}
