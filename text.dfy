/**
 * String helpers shared by the build command and the renderer: Python's
 * `str.strip()`, repetition (`s * n`), `sep.join(parts)`, code-point string
 * order, `int()` on a run of decimal digits, and `str.format` restricted to
 * named placeholders such as `{version}` or `{issue}`.
 */
module Text {
  import opened Wrappers

  /**
   * The characters `str.strip()` removes: those Python's `str.isspace()`
   * accepts, namely the ASCII controls 0x09-0x0D and 0x1C-0x1F, the space,
   * NEL, the no-break space and the Unicode space separators and line and
   * paragraph separators.
   */
  predicate IsSpace(c: char) {
    || ('\t' <= c <= '\r')
    || ('\U{1C}' <= c <= ' ')
    || c == '\U{85}' || c == '\U{A0}' || c == '\U{1680}'
    || ('\U{2000}' <= c <= '\U{200A}')
    || c == '\U{2028}' || c == '\U{2029}' || c == '\U{202F}' || c == '\U{205F}' || c == '\U{3000}'
  }

  /** No whitespace at either end: what `str.strip()` guarantees. */
  predicate IsStripped(s: string) {
    s == [] || (!IsSpace(s[0]) && !IsSpace(s[|s| - 1]))
  }

  /** How many characters `s.lstrip()` removes: the length of the all-whitespace prefix. */
  function LeadingSpaces(s: string): (n: nat)
    ensures n <= |s|
    ensures forall i :: 0 <= i < n ==> IsSpace(s[i])
    ensures n < |s| ==> !IsSpace(s[n])
  {
    if s != [] && IsSpace(s[0]) then 1 + LeadingSpaces(s[1..]) else 0
  }

  /** How many characters `s.rstrip()` removes: the length of the all-whitespace suffix. */
  function TrailingSpaces(s: string): (n: nat)
    ensures n <= |s|
    ensures forall i :: |s| - n <= i < |s| ==> IsSpace(s[i])
    ensures n < |s| ==> !IsSpace(s[|s| - n - 1])
  {
    if s != [] && IsSpace(s[|s| - 1]) then 1 + TrailingSpaces(s[..|s| - 1]) else 0
  }

  /** `s.strip()`: `lstrip` and then `rstrip`. */
  function Strip(s: string): (r: string)
    ensures IsStripped(r)
  {
    var lo := LeadingSpaces(s);
    s[lo..][..|s| - lo - TrailingSpaces(s[lo..])]
  }

  /**
   * Stripping keeps a contiguous run of `s` and removes only whitespace on
   * either side of it.
   */
  lemma {:induction false} StripIsInfix(s: string)
    ensures exists lo, hi :: 0 <= lo <= hi <= |s| && Strip(s) == s[lo..hi]
                            && (forall i :: 0 <= i < lo ==> IsSpace(s[i]))
                            && (forall i :: hi <= i < |s| ==> IsSpace(s[i]))
  {
    var lo := LeadingSpaces(s);
    var t := s[lo..];
    var hi := |s| - TrailingSpaces(t);
    assert Strip(s) == s[lo..hi];
    forall i | hi <= i < |s| ensures IsSpace(s[i]) {
      assert s[i] == t[i - lo];
    }
  }

  /** A string with nothing to strip is left unchanged. */
  lemma {:induction false} StripStripped(s: string)
    requires IsStripped(s)
    ensures Strip(s) == s
  {
  }

  /** Stripping twice is stripping once. */
  lemma {:induction false} StripIdempotent(s: string)
    ensures Strip(Strip(s)) == Strip(s)
  {
    StripStripped(Strip(s));
  }

  /** Whitespace around a stripped, non-empty core is exactly what `Strip` removes. */
  lemma {:induction false} StripAround(pre: string, core: string, post: string)
    requires forall i :: 0 <= i < |pre| ==> IsSpace(pre[i])
    requires forall i :: 0 <= i < |post| ==> IsSpace(post[i])
    requires core != [] && IsStripped(core)
    ensures Strip(pre + core + post) == core
  {
    var s := pre + core + post;
    LeadingOf(pre, core + post);
    assert s == pre + (core + post);
    assert s[|pre|..] == core + post;
    TrailingOf(core, post);
  }

  lemma {:induction false} LeadingOf(pre: string, s: string)
    requires forall i :: 0 <= i < |pre| ==> IsSpace(pre[i])
    requires s != [] && !IsSpace(s[0])
    ensures LeadingSpaces(pre + s) == |pre|
  {
    if pre != [] {
      assert (pre + s)[1..] == pre[1..] + s;
      LeadingOf(pre[1..], s);
    }
  }

  lemma {:induction false} TrailingOf(s: string, post: string)
    requires forall i :: 0 <= i < |post| ==> IsSpace(post[i])
    requires s != [] && !IsSpace(s[|s| - 1])
    ensures TrailingSpaces(s + post) == |post|
  {
    if post != [] {
      assert (s + post)[..|s + post| - 1] == s + post[..|post| - 1];
      TrailingOf(s, post[..|post| - 1]);
    }
  }

  /** `[c] * n` joined: the character `c` repeated `n` times. */
  function Repeat(c: char, n: nat): (r: string)
    ensures |r| == n
    ensures forall i :: 0 <= i < n ==> r[i] == c
  {
    if n == 0 then [] else Repeat(c, n - 1) + [c]
  }

  /** `sep.join(parts)`. */
  function Join(parts: seq<string>, sep: string): (r: string)
  {
    if parts == [] then []
    else if |parts| == 1 then parts[0]
    else parts[0] + sep + Join(parts[1..], sep)
  }

  /** Joining three parts puts the separator between each neighbouring pair. */
  lemma {:induction false} Join3(a: string, b: string, c: string, sep: string)
    ensures Join([a, b, c], sep) == a + sep + b + sep + c
  {
    assert [a, b, c][1..] == [b, c];
    assert [b, c][1..] == [c];
    assert Join([b, c], sep) == b + sep + c;
  }

  /** A join of parts that hold no `c`, separated by a separator that holds no `c`, holds no `c`. */
  lemma {:induction false} JoinAvoids(parts: seq<string>, sep: string, c: char)
    requires c !in sep
    requires forall k :: 0 <= k < |parts| ==> c !in parts[k]
    ensures c !in Join(parts, sep)
  {
    if |parts| > 1 {
      JoinAvoids(parts[1..], sep, c);
    }
  }

  /** Python's `a < b` on strings: code-point lexicographic order. */
  predicate StrLt(a: string, b: string) {
    b != [] && (a == [] || a[0] < b[0] || (a[0] == b[0] && StrLt(a[1..], b[1..])))
  }

  lemma {:induction false} StrLtIrreflexive(a: string)
    ensures !StrLt(a, a)
  {
    if a != [] { StrLtIrreflexive(a[1..]); }
  }

  lemma {:induction false} StrLtTransitive(a: string, b: string, c: string)
    requires StrLt(a, b) && StrLt(b, c)
    ensures StrLt(a, c)
  {
    if a != [] && a[0] == b[0] && b[0] == c[0] {
      StrLtTransitive(a[1..], b[1..], c[1..]);
    }
  }

  lemma {:induction false} StrLtTotal(a: string, b: string)
    ensures a == b || StrLt(a, b) || StrLt(b, a)
  {
    if a != [] && b != [] && a[0] == b[0] {
      StrLtTotal(a[1..], b[1..]);
      if a[1..] == b[1..] {
        assert a == [a[0]] + a[1..] && b == [b[0]] + b[1..];
      }
    }
  }

  predicate IsDigit(c: char) {
    '0' <= c <= '9'
  }

  /** A non-empty run of decimal digits: a string that `int()` accepts in the model. */
  predicate IsNumeric(s: string) {
    |s| > 0 && forall i :: 0 <= i < |s| ==> IsDigit(s[i])
  }

  /** `int(s)` on a run of decimal digits. */
  function ParseNat(s: string): (n: nat)
    requires forall i :: 0 <= i < |s| ==> IsDigit(s[i])
  {
    if s == [] then 0
    else
      assert IsDigit(s[|s| - 1]);
      10 * ParseNat(s[..|s| - 1]) + (s[|s| - 1] as int - '0' as int)
  }

  /** A named replacement field `{name}` and the value substituted for it. */
  datatype Field = Field(name: string, value: string)

  function Placeholder(name: string): string {
    "{" + name + "}"
  }

  /** `s.find(c)`: the index of the first `c` in `s`, if any. */
  function IndexOf(s: string, c: char): (r: Option<nat>)
    ensures r.Some? ==> r.value < |s| && s[r.value] == c
  {
    if s == [] then None
    else if s[0] == c then Some(0)
    else match IndexOf(s[1..], c)
      case Some(i) => Some(i + 1)
      case None => None
  }

  /** The value given for `name`, the first one if several fields share it. */
  function Lookup(fields: seq<Field>, name: string): Option<string>
  {
    if fields == [] then None
    else if fields[0].name == name then Some(fields[0].value)
    else Lookup(fields[1..], name)
  }

  /**
   * `t.format(**fields)`: a single left-to-right pass in which `{` followed
   * by a given field's name and `}` becomes that field's value and every
   * other character is copied.
   */
  function Format(t: string, fields: seq<Field>): (r: string)
    decreases |t|
  {
    if t == [] then []
    else if t[0] != '{' then [t[0]] + Format(t[1..], fields)
    else
      var close := IndexOf(t[1..], '}');
      if close.Some? && Lookup(fields, t[1..close.value + 1]).Some? then
        Lookup(fields, t[1..close.value + 1]).value + Format(t[close.value + 2..], fields)
      else
        [t[0]] + Format(t[1..], fields)
  }

  /** A template without `{` is copied unchanged. */
  lemma {:induction false} FormatLiteral(t: string, fields: seq<Field>)
    requires '{' !in t
    ensures Format(t, fields) == t
  {
    if t != [] {
      FormatLiteral(t[1..], fields);
      assert t == [t[0]] + t[1..];
    }
  }

  /** In `name}q` with no `}` in `name`, the first `}` closes the name. */
  lemma {:induction false} CloseAfterName(name: string, q: string)
    requires '}' !in name
    ensures IndexOf(name + "}" + q, '}') == Some(|name|)
  {
    if name != [] {
      assert (name + "}" + q)[1..] == name[1..] + "}" + q;
      CloseAfterName(name[1..], q);
    }
  }

  /** A placeholder at the start is replaced by its field's value. */
  lemma {:induction false} FormatAtPlaceholder(name: string, q: string, fields: seq<Field>)
    requires '}' !in name && Lookup(fields, name).Some?
    ensures Format(Placeholder(name) + q, fields) == Lookup(fields, name).value + Format(q, fields)
  {
    var t := Placeholder(name) + q;
    var rest := name + "}" + q;
    assert t[0] == '{' && t[1..] == rest;
    CloseAfterName(name, q);
    var close := IndexOf(t[1..], '}');
    assert close == Some(|name|);
    assert t[1..close.value + 1] == name;
    assert t[close.value + 2..] == q;
  }

  /** A character other than `{` is copied. */
  lemma {:induction false} FormatCopies(t: string, fields: seq<Field>)
    requires t != [] && t[0] != '{'
    ensures Format(t, fields) == [t[0]] + Format(t[1..], fields)
  {
  }

  /**
   * Substitution: text before a placeholder is copied, the placeholder becomes
   * its field's value, and formatting carries on after it.
   */
  lemma {:induction false} FormatPlaceholder(p: string, name: string, q: string, fields: seq<Field>)
    requires '{' !in p && '}' !in name
    requires Lookup(fields, name).Some?
    ensures Format(p + Placeholder(name) + q, fields) == p + Lookup(fields, name).value + Format(q, fields)
  {
    var value := Lookup(fields, name).value;
    if p == [] {
      assert p + Placeholder(name) + q == Placeholder(name) + q;
      FormatAtPlaceholder(name, q, fields);
    } else {
      assert '{' !in p[1..] by {
        forall c | c in p[1..] ensures c != '{' {
          var j :| 0 <= j < |p[1..]| && p[1..][j] == c;
          assert p[j + 1] == c;
        }
      }
      FormatPlaceholder(p[1..], name, q, fields);
      var t := p + Placeholder(name) + q;
      assert t[0] == p[0] && t[1..] == p[1..] + Placeholder(name) + q;
      FormatCopies(t, fields);
      assert p == [p[0]] + p[1..];
    }
  }
}
