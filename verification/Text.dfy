/** Strings as the service and its SQL use them: identifiers, byte order, LIKE,
    Trim and Split. */
module Text {

  /** The characters LIKE treats specially; a plain string has none of them. */
  predicate Plain(s: string) {
    forall c | c in s :: c != '%' && c != '_' && c != '\\'
  }

  predicate SlashFree(s: string) {
    '/' !in s
  }

  /** Every generated identifier is a UUID in text form: non-empty, and free of
      the path separator and of the LIKE special characters. */
  predicate ValidId(s: string) {
    s != "" && SlashFree(s) && Plain(s)
  }

  type Uuid = s: string | ValidId(s) witness "0"

  // ----- Go's string order -----

  predicate Less(a: string, b: string) {
    if b == "" then false
    else if a == "" then true
    else a[0] < b[0] || (a[0] == b[0] && Less(a[1..], b[1..]))
  }

  /** The order is the lexicographic one: at the first difference the smaller character, or the end, comes first. */
  lemma {:induction false} LessIsLexicographic(a: string, b: string)
    ensures Less(a, b) <==> exists k | 0 <= k <= |a| && k < |b| :: a[..k] == b[..k] && (k == |a| || a[k] < b[k])
  {
    if a != "" && b != "" {
      if a[0] == b[0] {
        LessIsLexicographic(a[1..], b[1..]);
        FirstDifference(a, b);
      } else {
        assert a[..0] == b[..0];
        assert forall k | 0 < k <= |a| && k < |b| :: a[..k][0] != b[..k][0];
      }
    } else if b != "" {
      assert a[..0] == b[..0];
    }
  }

  lemma FirstDifference(a: string, b: string)
    requires a != "" && b != "" && a[0] == b[0]
    ensures (exists k | 0 <= k <= |a| && k < |b| :: a[..k] == b[..k] && (k == |a| || a[k] < b[k]))
       <==> var (c, d) := (a[1..], b[1..]);
            exists k | 0 <= k <= |c| && k < |d| :: c[..k] == d[..k] && (k == |c| || c[k] < d[k])
  {
    var (c, d) := (a[1..], b[1..]);
    if k :| 0 <= k <= |a| && k < |b| && a[..k] == b[..k] && (k == |a| || a[k] < b[k]) {
      assert k > 0;
      assert c[..k - 1] == a[..k][1..] && d[..k - 1] == b[..k][1..];
    }
    if k :| 0 <= k <= |c| && k < |d| && c[..k] == d[..k] && (k == |c| || c[k] < d[k]) {
      assert a[..k + 1] == [a[0]] + c[..k] && b[..k + 1] == [b[0]] + d[..k];
    }
  }

  lemma {:induction false} LessIrreflexive(a: string)
    ensures !Less(a, a)
  {
    if a != "" {
      LessIrreflexive(a[1..]);
    }
  }

  lemma {:induction false} LessTotal(a: string, b: string)
    ensures a == b || Less(a, b) || Less(b, a)
  {
    if a != "" && b != "" && a[0] == b[0] {
      LessTotal(a[1..], b[1..]);
      if a[1..] == b[1..] {
        assert a == [a[0]] + a[1..] && b == [b[0]] + b[1..];
      }
    }
  }

  lemma {:induction false} LessTransitive(a: string, b: string, c: string)
    requires Less(a, b) && Less(b, c)
    ensures Less(a, c)
  {
    if a != "" && a[0] == b[0] == c[0] {
      LessTransitive(a[1..], b[1..], c[1..]);
    }
  }

  lemma LessAsymmetric(a: string, b: string)
    requires Less(a, b)
    ensures !Less(b, a)
  {
    if Less(b, a) {
      LessTransitive(a, b, a);
      LessIrreflexive(a);
    }
  }

  /** A proper prefix sorts first. */
  lemma {:induction false} PrefixLess(a: string, b: string)
    requires a <= b && a != b
    ensures Less(a, b)
  {
    if a != "" {
      assert a[1..] <= b[1..];
      assert a == [a[0]] + a[1..] && b == [b[0]] + b[1..];
      PrefixLess(a[1..], b[1..]);
    }
  }

  /** Strings that differ before either ends keep their order however they are extended. */
  lemma {:induction false} LessExtends(a: string, b: string, a': string, b': string)
    requires Less(a, b) && !(a <= b)
    requires a <= a' && b <= b'
    ensures Less(a', b')
  {
    assert a != "";
    assert a[0] == a'[0] && b[0] == b'[0];
    if a[0] == b[0] {
      assert a == [a[0]] + a[1..] && b == [b[0]] + b[1..];
      assert !(a[1..] <= b[1..]);
      assert a[1..] <= a'[1..] && b[1..] <= b'[1..];
      LessExtends(a[1..], b[1..], a'[1..], b'[1..]);
    }
  }

  // ----- SQL LIKE -----

  /** `s LIKE p` with the default escape character. */
  predicate Like(s: string, p: string)
    decreases |s| + |p|
  {
    if p == "" then s == ""
    else if p[0] == '%' then Like(s, p[1..]) || (s != "" && Like(s[1..], p))
    else if s == "" then false
    else if p[0] == '_' then Like(s[1..], p[1..])
    else if p[0] == '\\' && |p| > 1 then s[0] == p[1] && Like(s[1..], p[2..])
    else s[0] == p[0] && Like(s[1..], p[1..])
  }

  lemma {:induction false} LikeAnything(s: string)
    ensures Like(s, "%")
  {
    if s != "" {
      LikeAnything(s[1..]);
    } else {
      assert "%"[1..] == "";
    }
  }

  /** On a plain string, `LIKE p || '%'` is exactly the prefix test. */
  lemma {:induction false} LikePrefix(s: string, p: string)
    requires Plain(p)
    ensures Like(s, p + "%") <==> p <= s
  {
    if p == "" {
      assert p + "%" == "%";
      LikeAnything(s);
    } else if s != "" {
      assert p[0] in p && (p + "%")[1..] == p[1..] + "%";
      assert forall c | c in p[1..] :: c in p;
      LikePrefix(s[1..], p[1..]);
      if s[0] == p[0] && p[1..] <= s[1..] {
        assert p == [p[0]] + p[1..] && s == [s[0]] + s[1..];
      }
    } else {
      assert p[0] in p;
    }
  }

  /** SQL SUBSTRING(s, k + 1): the rest of the string, empty past its end. */
  function From(s: string, k: nat): string {
    if k <= |s| then s[k..] else ""
  }

  // ----- Go's strings.Trim(s, "/") and strings.Split(s, "/") -----

  function TrimLeft(s: string): string {
    if s != "" && s[0] == '/' then TrimLeft(s[1..]) else s
  }

  function TrimRight(s: string): string {
    if s != "" && s[|s| - 1] == '/' then TrimRight(s[..|s| - 1]) else s
  }

  function Trim(s: string): string {
    TrimRight(TrimLeft(s))
  }

  /** The text before the first separator and the text after it. */
  function Cut(s: string): (r: (string, string))
    requires '/' in s
    ensures SlashFree(r.0) && s == r.0 + "/" + r.1
  {
    if s[0] == '/' then ("", s[1..])
    else
      assert s == [s[0]] + s[1..];
      var (head, tail) := Cut(s[1..]);
      ([s[0]] + head, tail)
  }

  function Split(s: string): seq<string>
    decreases |s|
  {
    if SlashFree(s) then [s]
    else var (head, tail) := Cut(s); [head] + Split(tail)
  }

  lemma {:induction false} CutAppend(s: string, rest: string)
    requires '/' in s
    ensures '/' in s + rest && Cut(s + rest) == (Cut(s).0, Cut(s).1 + rest)
  {
    assert s == [s[0]] + s[1..];
    if s[0] == '/' {
      assert (s + rest)[1..] == s[1..] + rest;
    } else {
      CutAppend(s[1..], rest);
      assert (s + rest)[1..] == s[1..] + rest;
    }
  }

  lemma {:induction false} CutHead(head: string, tail: string)
    requires SlashFree(head)
    ensures '/' in head + "/" + tail && Cut(head + "/" + tail) == (head, tail)
  {
    var s := head + "/" + tail;
    assert s[|head|] == '/';
    if head != "" {
      assert s[0] == head[0] && head[0] in head && s[1..] == head[1..] + "/" + tail;
      CutHead(head[1..], tail);
      assert head == [head[0]] + head[1..];
    } else {
      assert s[1..] == tail;
    }
  }

  lemma {:induction false} SplitSnoc(s: string, id: string)
    requires SlashFree(id)
    ensures Split(s + "/" + id) == Split(s) + [id]
    decreases |s|
  {
    if SlashFree(s) {
      CutHead(s, id);
    } else {
      var (head, tail) := Cut(s);
      assert s + "/" + id == s + ("/" + id);
      CutAppend(s, "/" + id);
      assert tail + ("/" + id) == tail + "/" + id;
      SplitSnoc(tail, id);
      assert [head] + (Split(tail) + [id]) == ([head] + Split(tail)) + [id];
    }
  }

  lemma TrimEnds(s: string)
    requires s != "" && s[0] != '/' && s[|s| - 1] != '/'
    ensures Trim("/" + s + "/") == s
  {
    var t := "/" + s + "/";
    assert t[1..] == s + "/";
    assert (s + "/")[..|s|] == s;
    assert TrimRight(s) == s;
    assert TrimRight(s + "/") == s;
    assert TrimLeft(s + "/") == s + "/";
  }
}
