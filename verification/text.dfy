/** The string helpers the handlers rely on: `strings.Split` on a one-character
    separator, its inverse `Join`, `strings.Contains`, and `%d` formatting. */
module Text {

  /** `strings.Join(parts, string(sep))`. */
  function Join(parts: seq<string>, sep: char): string
    requires |parts| >= 1
  {
    if |parts| == 1 then parts[0]
    else Join(parts[..|parts| - 1], sep) + [sep] + parts[|parts| - 1]
  }

  /** `strings.Split(s, string(sep))`: the pieces between separators, empty
      pieces included, so a string with `n` separators gives `n + 1` pieces. */
  function Split(s: string, sep: char): (parts: seq<string>)
    ensures |parts| >= 1
    ensures forall i :: 0 <= i < |parts| ==> sep !in parts[i]
    ensures Join(parts, sep) == s
  {
    if |s| == 0 then [""]
    else
      var init := Split(s[..|s| - 1], sep);
      var c := s[|s| - 1];
      assert s == s[..|s| - 1] + [c];
      if c == sep then
        JoinAppendEmpty(init, sep);
        init + [""]
      else
        JoinExtendLast(init, sep, c);
        init[..|init| - 1] + [init[|init| - 1] + [c]]
  }

  /** A trailing empty piece adds one trailing separator. */
  lemma JoinAppendEmpty(parts: seq<string>, sep: char)
    requires |parts| >= 1
    requires forall i :: 0 <= i < |parts| ==> sep !in parts[i]
    ensures var r := parts + [""];
      && (forall i :: 0 <= i < |r| ==> sep !in r[i])
      && Join(r, sep) == Join(parts, sep) + [sep]
  {
    assert (parts + [""])[..|parts|] == parts;
  }

  /** Extending the last piece by a non-separator extends the joined string by it. */
  lemma JoinExtendLast(parts: seq<string>, sep: char, c: char)
    requires |parts| >= 1 && c != sep
    requires forall i :: 0 <= i < |parts| ==> sep !in parts[i]
    ensures var k := |parts|;
      var r := parts[..k - 1] + [parts[k - 1] + [c]];
      && |r| >= 1
      && (forall i :: 0 <= i < |r| ==> sep !in r[i])
      && Join(r, sep) == Join(parts, sep) + [c]
  {
    var k := |parts|;
    var r := parts[..k - 1] + [parts[k - 1] + [c]];
    assert r[..k - 1] == parts[..k - 1];
    forall i | 0 <= i < |r|
      ensures sep !in r[i]
    {
      if i < k - 1 {
        assert r[i] == parts[i];
      }
    }
  }

  /** Splitting a string made of separator-free `body` after `prefix` and one
      separator yields the split of `prefix` followed by `body`. */
  lemma {:induction false} SplitAfterSeparator(prefix: string, sep: char, body: string)
    requires sep !in body
    ensures Split(prefix + [sep] + body, sep) == Split(prefix, sep) + [body]
    decreases |body|
  {
    var s := prefix + [sep] + body;
    if |body| == 0 {
      assert s[..|s| - 1] == prefix;
    } else {
      var body' := body[..|body| - 1];
      var c := body[|body| - 1];
      assert c in body;
      assert s[..|s| - 1] == prefix + [sep] + body';
      SplitAfterSeparator(prefix, sep, body');
      var init := Split(prefix + [sep] + body', sep);
      assert init == Split(prefix, sep) + [body'];
      assert body' + [c] == body;
    }
  }

  /** `Split` inverts `Join` on pieces that contain no separator. */
  lemma {:induction false} SplitJoin(parts: seq<string>, sep: char)
    requires |parts| >= 1
    requires forall i :: 0 <= i < |parts| ==> sep !in parts[i]
    ensures Split(Join(parts, sep), sep) == parts
    decreases |parts|
  {
    if |parts| == 1 {
      SplitAfterSeparator([], sep, parts[0]);
      assert Split(Join(parts, sep), sep) == Split(parts[0], sep);
      SplitNoSeparator(parts[0], sep);
    } else {
      var init := parts[..|parts| - 1];
      SplitJoin(init, sep);
      SplitAfterSeparator(Join(init, sep), sep, parts[|parts| - 1]);
      assert init + [parts[|parts| - 1]] == parts;
    }
  }

  /** A string without separators splits into itself alone. */
  lemma {:induction false} SplitNoSeparator(s: string, sep: char)
    requires sep !in s
    ensures Split(s, sep) == [s]
  {
    if |s| > 0 {
      assert s[|s| - 1] in s;
      var init := s[..|s| - 1];
      assert forall c :: c in init ==> c in s;
      SplitNoSeparator(init, sep);
      assert init + [s[|s| - 1]] == s;
    }
  }

  /** `sub` occurs in `s` at position `i`. */
  ghost predicate OccursAt(s: string, sub: string, i: int) {
    0 <= i && i + |sub| <= |s| && s[i..i + |sub|] == sub
  }

  /** `strings.Contains`: `sub` occurs somewhere in `s`. */
  function Contains(s: string, sub: string): (b: bool)
    ensures b <==> exists i :: OccursAt(s, sub, i)
    decreases |s|
  {
    if |sub| > |s| then
      assert forall i :: !OccursAt(s, sub, i);
      false
    else if s[..|sub|] == sub then
      assert OccursAt(s, sub, 0);
      true
    else
      ContainsShift(s, sub);
      Contains(s[1..], sub)
  }

  /** An occurrence in `s` past the first position is an occurrence in `s[1..]`, and back. */
  lemma ContainsShift(s: string, sub: string)
    requires |sub| <= |s| && s[..|sub|] != sub
    ensures (exists i :: OccursAt(s, sub, i)) <==> exists i :: OccursAt(s[1..], sub, i)
  {
    if exists i :: OccursAt(s, sub, i) {
      var i :| OccursAt(s, sub, i);
      assert i != 0;
      assert s[1..][i - 1..i - 1 + |sub|] == s[i..i + |sub|];
      assert OccursAt(s[1..], sub, i - 1);
    }
    if exists i :: OccursAt(s[1..], sub, i) {
      var i :| OccursAt(s[1..], sub, i);
      assert s[1..][i..i + |sub|] == s[i + 1..i + 1 + |sub|];
      assert OccursAt(s, sub, i + 1);
    }
  }

  /** A string lacking one of `sub`'s characters does not contain `sub`. */
  lemma MissingCharNotContained(s: string, sub: string, c: char)
    requires c in sub && c !in s
    ensures !Contains(s, sub)
  {
  }

  function DigitChar(d: nat): (c: char)
    requires d < 10
    ensures '0' <= c <= '9'
  {
    ('0' as int + d) as char
  }

  /** Decimal digits of `n`, most significant first, no leading zeros. */
  function NatToString(n: nat): (s: string)
    ensures |s| >= 1
    ensures forall i :: 0 <= i < |s| ==> '0' <= s[i] <= '9'
    ensures |s| > 1 ==> s[0] != '0'
    decreases n
  {
    if n < 10 then [DigitChar(n)] else NatToString(n / 10) + [DigitChar(n % 10)]
  }

  /** Value of a string of decimal digits. */
  function DigitsValue(s: string): nat
    requires forall i :: 0 <= i < |s| ==> '0' <= s[i] <= '9'
  {
    if |s| == 0 then 0
    else 10 * DigitsValue(s[..|s| - 1]) + (s[|s| - 1] as int - '0' as int)
  }

  /** `NatToString` writes exactly the number it is given. */
  lemma {:induction false} NatToStringValue(n: nat)
    ensures DigitsValue(NatToString(n)) == n
    decreases n
  {
    if n >= 10 {
      NatToStringValue(n / 10);
      var s := NatToString(n);
      assert s[..|s| - 1] == NatToString(n / 10);
    }
  }

  /** `%d` of an integer. */
  function IntToString(i: int): string {
    if i < 0 then "-" + NatToString(-i) else NatToString(i)
  }
}
