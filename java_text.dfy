/** The java.lang.String operations that the validator, the registry and the
    controller rely on, stated over Dafny strings. Case mapping is ASCII only
    (the Java code's locale-dependent mappings of non-ASCII letters are not
    modelled). */
module JavaText {

  /** Character.isWhitespace: the ASCII controls TAB..CR and FS..US, the space,
      and the Unicode space separators other than the non-breaking ones. */
  predicate IsJavaWhitespace(c: char) {
    || ('\t' <= c <= '\r')
    || ('\U{1C}' <= c <= ' ')
    || c == '\U{1680}'
    || ('\U{2000}' <= c <= '\U{2006}')
    || ('\U{2008}' <= c <= '\U{200A}')
    || c == '\U{2028}' || c == '\U{2029}' || c == '\U{205F}' || c == '\U{3000}'
  }

  /** The regular-expression class \s without UNICODE_CHARACTER_CLASS:
      [ \t\n\x0B\f\r]. */
  predicate IsRegexWhitespace(c: char) {
    c == ' ' || ('\t' <= c <= '\r')
  }

  /** The characters String.trim removes from both ends: every code point up
      to and including the space. */
  predicate IsTrimmable(c: char) {
    c <= ' '
  }

  predicate IsAsciiDigit(c: char) {
    '0' <= c <= '9'
  }

  predicate IsAsciiUpper(c: char) {
    'A' <= c <= 'Z'
  }

  predicate IsAsciiLower(c: char) {
    'a' <= c <= 'z'
  }

  /** String.isBlank: empty or only whitespace code points. */
  predicate IsBlank(s: string)
    ensures s == [] ==> IsBlank(s)
    ensures IsBlank(s) ==>
              forall i :: 0 <= i < |s| ==> !IsAsciiDigit(s[i]) && !IsAsciiUpper(s[i]) && !IsAsciiLower(s[i])
  {
    forall i :: 0 <= i < |s| ==> IsJavaWhitespace(s[i])
  }

  /** A string String.trim leaves unchanged. */
  predicate IsTrimmed(s: string) {
    s == [] || (!IsTrimmable(s[0]) && !IsTrimmable(s[|s| - 1]))
  }

  function TrimStart(s: string): (r: string)
    ensures |r| <= |s|
    ensures r == [] || !IsTrimmable(r[0])
    decreases |s|
  {
    if |s| > 0 && IsTrimmable(s[0]) then TrimStart(s[1..]) else s
  }

  function TrimEnd(s: string): (r: string)
    ensures |r| <= |s|
    ensures r == [] || !IsTrimmable(r[|r| - 1])
    ensures r != [] ==> r[0] == s[0]
    decreases |s|
  {
    if |s| > 0 && IsTrimmable(s[|s| - 1]) then TrimEnd(s[..|s| - 1]) else s
  }

  /** String.trim: drops the code points up to the space from both ends. */
  function Trim(s: string): (r: string)
    ensures IsTrimmed(r)
  {
    TrimEnd(TrimStart(s))
  }

  lemma {:induction false} TrimStartIsSuffix(s: string)
    ensures TrimStart(s) == s[|s| - |TrimStart(s)|..]
    ensures forall i :: 0 <= i < |s| - |TrimStart(s)| ==> IsTrimmable(s[i])
    decreases |s|
  {
    if |s| > 0 && IsTrimmable(s[0]) {
      TrimStartIsSuffix(s[1..]);
    }
  }

  lemma {:induction false} TrimEndIsPrefix(s: string)
    ensures TrimEnd(s) == s[..|TrimEnd(s)|]
    ensures forall i :: |TrimEnd(s)| <= i < |s| ==> IsTrimmable(s[i])
    decreases |s|
  {
    if |s| > 0 && IsTrimmable(s[|s| - 1]) {
      TrimEndIsPrefix(s[..|s| - 1]);
    }
  }

  /** What trim keeps is a contiguous piece of its input, and it keeps nothing
      only when every character is trimmable. */
  lemma TrimKeepsMiddle(s: string)
    ensures |Trim(s)| <= |s|
    ensures exists a, b :: 0 <= a <= b <= |s| && Trim(s) == s[a..b]
              && (forall i :: 0 <= i < a ==> IsTrimmable(s[i]))
              && (forall i :: b <= i < |s| ==> IsTrimmable(s[i]))
    ensures forall k :: 0 <= k < |Trim(s)| ==> exists i :: 0 <= i < |s| && s[i] == Trim(s)[k]
    ensures (forall i :: 0 <= i < |s| ==> IsTrimmable(s[i])) <==> Trim(s) == []
  {
    var t := TrimStart(s);
    var r := TrimEnd(t);
    TrimStartIsSuffix(s);
    TrimEndIsPrefix(t);
    var a, b := |s| - |t|, |s| - |t| + |r|;
    assert r == s[a..b];
    assert forall i :: b <= i < |s| ==> s[i] == t[i - a];
    assert forall k :: 0 <= k < |r| ==> s[|s| - |t| + k] == r[k];
    assert r == [] ==> t == [];
  }

  lemma {:induction false} TrimOfTrimmed(s: string)
    requires IsTrimmed(s)
    ensures Trim(s) == s
  {
    assert TrimStart(s) == s;
  }

  /** Trimming twice is trimming once. */
  lemma TrimIdempotent(s: string)
    ensures Trim(Trim(s)) == Trim(s)
  {
    TrimOfTrimmed(Trim(s));
  }

  function UpperChar(c: char): char {
    if IsAsciiLower(c) then (c as int - 32) as char else c
  }

  function LowerChar(c: char): char {
    if IsAsciiUpper(c) then (c as int + 32) as char else c
  }

  /** String.toUpperCase restricted to ASCII letters. */
  function ToUpper(s: string): (r: string)
    ensures |r| == |s|
    ensures forall i :: 0 <= i < |s| ==> r[i] == UpperChar(s[i])
  {
    seq(|s|, i requires 0 <= i < |s| => UpperChar(s[i]))
  }

  /** String.toLowerCase restricted to ASCII letters. */
  function ToLower(s: string): (r: string)
    ensures |r| == |s|
    ensures forall i :: 0 <= i < |s| ==> r[i] == LowerChar(s[i])
  {
    seq(|s|, i requires 0 <= i < |s| => LowerChar(s[i]))
  }

  /** String.replaceAll("\\s+", ""): every regex whitespace character is
      removed, every other character is kept in order. */
  function RemoveRegexWhitespace(s: string): (r: string)
    ensures |r| <= |s|
    ensures forall i :: 0 <= i < |r| ==> !IsRegexWhitespace(r[i])
    decreases |s|
  {
    if s == [] then []
    else (if IsRegexWhitespace(s[0]) then [] else [s[0]]) + RemoveRegexWhitespace(s[1..])
  }

  /** Removing whitespace introduces no character of its own. */
  lemma {:induction false} RemoveRegexWhitespaceKeeps(s: string)
    ensures forall i :: 0 <= i < |RemoveRegexWhitespace(s)| ==>
              exists j :: 0 <= j < |s| && s[j] == RemoveRegexWhitespace(s)[i]
    decreases |s|
  {
    if s == [] {
      assert |RemoveRegexWhitespace(s)| == 0;
    } else {
      var rest := RemoveRegexWhitespace(s[1..]);
      RemoveRegexWhitespaceKeeps(s[1..]);
      var h := if IsRegexWhitespace(s[0]) then [] else [s[0]];
      var r := h + rest;
      assert r == RemoveRegexWhitespace(s);
      forall i | 0 <= i < |r|
        ensures exists j :: 0 <= j < |s| && s[j] == RemoveRegexWhitespace(s)[i]
      {
        if i < |h| {
          assert s[0] == r[i];
        } else {
          var j :| 0 <= j < |s[1..]| && s[1..][j] == rest[i - |h|];
          assert s[j + 1] == r[i];
        }
      }
    }
  }

  /** A string without whitespace comes back unchanged, and a character at
      either end that is not whitespace stays at that end. */
  lemma RemoveRegexWhitespaceKeepsEnds(s: string)
    ensures (forall i :: 0 <= i < |s| ==> !IsRegexWhitespace(s[i])) ==> RemoveRegexWhitespace(s) == s
    ensures |s| > 0 && !IsRegexWhitespace(s[0]) ==>
              |RemoveRegexWhitespace(s)| > 0 && RemoveRegexWhitespace(s)[0] == s[0]
    ensures |s| > 0 && !IsRegexWhitespace(s[|s| - 1]) ==>
              var r := RemoveRegexWhitespace(s);
              |r| > 0 && r[|r| - 1] == s[|s| - 1]
  {
    if forall i :: 0 <= i < |s| ==> !IsRegexWhitespace(s[i]) {
      RemoveRegexWhitespaceNone(s);
    }
    if |s| > 0 && !IsRegexWhitespace(s[|s| - 1]) {
      RemoveRegexWhitespaceKeepsLast(s);
    }
  }

  lemma {:induction false} RemoveRegexWhitespaceNone(s: string)
    requires forall i :: 0 <= i < |s| ==> !IsRegexWhitespace(s[i])
    ensures RemoveRegexWhitespace(s) == s
    decreases |s|
  {
    if s != [] {
      RemoveRegexWhitespaceNone(s[1..]);
    }
  }

  lemma {:induction false} RemoveRegexWhitespaceKeepsLast(s: string)
    requires |s| > 0 && !IsRegexWhitespace(s[|s| - 1])
    ensures var r := RemoveRegexWhitespace(s);
            |r| > 0 && r[|r| - 1] == s[|s| - 1]
    decreases |s|
  {
    if |s| > 1 {
      assert s[1..][|s| - 2] == s[|s| - 1];
      RemoveRegexWhitespaceKeepsLast(s[1..]);
    }
  }

  /** Removing whitespace from a concatenation removes it from each part. */
  lemma {:induction false} RemoveRegexWhitespaceAppend(a: string, b: string)
    ensures RemoveRegexWhitespace(a + b) == RemoveRegexWhitespace(a) + RemoveRegexWhitespace(b)
    decreases |a|
  {
    if a == [] {
      assert a + b == b;
    } else {
      var ab := a + b;
      assert ab[0] == a[0];
      assert ab[1..] == a[1..] + b;
      RemoveRegexWhitespaceAppend(a[1..], b);
      var h := if IsRegexWhitespace(a[0]) then [] else [a[0]];
      assert RemoveRegexWhitespace(ab) == h + RemoveRegexWhitespace(ab[1..]);
      assert RemoveRegexWhitespace(a) == h + RemoveRegexWhitespace(a[1..]);
      assert h + (RemoveRegexWhitespace(a[1..]) + RemoveRegexWhitespace(b))
          == (h + RemoveRegexWhitespace(a[1..])) + RemoveRegexWhitespace(b);
    }
  }

  /** String.equalsIgnoreCase on ASCII text. */
  predicate EqualsIgnoreCase(a: string, b: string)
    ensures EqualsIgnoreCase(a, b) <==> ToUpper(a) == ToUpper(b)
  {
    |a| == |b| && forall i :: 0 <= i < |a| ==> UpperChar(a[i]) == UpperChar(b[i])
  }

  /** String.contains. */
  predicate Contains(hay: string, needle: string)
    ensures needle == [] ==> Contains(hay, needle)
    ensures Contains(hay, needle) ==> |needle| <= |hay|
    decreases |hay|
  {
    needle <= hay || (|hay| > 0 && Contains(hay[1..], needle))
  }

  /** Glues fields back together with the separator between them. */
  function Join(fields: seq<string>, sep: char): string
    requires |fields| >= 1
  {
    if |fields| == 1 then fields[0] else fields[0] + [sep] + Join(fields[1..], sep)
  }

  /** String.split(String.valueOf(sep), -1): the pieces between separators,
      empty pieces included (also the trailing ones). */
  function Split(s: string, sep: char): (fields: seq<string>)
    ensures |fields| >= 1
    decreases |s|
  {
    if |s| == 0 then [""]
    else if s[0] == sep then [""] + Split(s[1..], sep)
    else
      var rest := Split(s[1..], sep);
      [[s[0]] + rest[0]] + rest[1..]
  }

  /** Splitting and joining again with the same separator gives the input
      back, and no piece contains the separator. */
  lemma {:induction false} SplitJoin(s: string, sep: char)
    ensures forall i :: 0 <= i < |Split(s, sep)| ==> sep !in Split(s, sep)[i]
    ensures Join(Split(s, sep), sep) == s
    decreases |s|
  {
    if |s| > 0 {
      SplitJoin(s[1..], sep);
      var rest := Split(s[1..], sep);
      if s[0] == sep {
        assert s == [] + [sep] + s[1..];
        assert ([""] + rest)[1..] == rest;
      } else {
        var fields := [[s[0]] + rest[0]] + rest[1..];
        assert fields[1..] == rest[1..];
        if |rest| > 1 {
          assert Join(rest, sep) == rest[0] + [sep] + Join(rest[1..], sep);
        }
      }
    }
  }

  /** String.compareTo(a, b) <= 0: lexicographic order on characters, a
      proper prefix first. */
  predicate LexLe(a: string, b: string)
    decreases |a|
  {
    a == [] || (b != [] && (a[0] < b[0] || (a[0] == b[0] && LexLe(a[1..], b[1..]))))
  }

  lemma LexLeTotal(a: string, b: string)
    ensures LexLe(a, b) || LexLe(b, a)
    decreases |a|
  {
    if a != [] && b != [] && a[0] == b[0] {
      LexLeTotal(a[1..], b[1..]);
    }
  }

  lemma LexLeTransitive(a: string, b: string, c: string)
    requires LexLe(a, b) && LexLe(b, c)
    ensures LexLe(a, c)
    decreases |a|
  {
    if a != [] && a[0] == b[0] && b[0] == c[0] {
      LexLeTransitive(a[1..], b[1..], c[1..]);
    }
  }

  lemma LexLeAntisymmetric(a: string, b: string)
    requires LexLe(a, b) && LexLe(b, a)
    ensures a == b
    decreases |a|
  {
    if a != [] {
      LexLeAntisymmetric(a[1..], b[1..]);
    }
  }
}
