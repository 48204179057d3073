/** ASCII folding, trimming and splitting, as the source's string methods do them. */
module Text {
  function LowerChar(c: char): char {
    if 'A' <= c <= 'Z' then ((c as int) + 32) as char else c
  }

  function Lower(s: string): (r: string)
    ensures |r| == |s| && forall i :: 0 <= i < |s| ==> r[i] == LowerChar(s[i])
  {
    seq(|s|, i requires 0 <= i < |s| => LowerChar(s[i]))
  }

  predicate EqIgnoreCase(a: string, b: string) {
    Lower(a) == Lower(b)
  }

  /** The same character, or one letter in both cases. */
  predicate SameLetter(c: char, d: char) {
    || c == d
    || ('A' <= c <= 'Z' && d as int - 'a' as int == c as int - 'A' as int)
    || ('A' <= d <= 'Z' && c as int - 'a' as int == d as int - 'A' as int)
  }

  /** Folded texts are equal exactly when the texts differ in the case of ASCII letters at most. */
  lemma EqIgnoreCaseExactly(a: string, b: string)
    ensures EqIgnoreCase(a, b) <==> |a| == |b| && forall i :: 0 <= i < |a| ==> SameLetter(a[i], b[i])
  {
    if EqIgnoreCase(a, b) {
      assert |a| == |b|;
      forall i | 0 <= i < |a|
        ensures SameLetter(a[i], b[i])
      {
        assert Lower(a)[i] == LowerChar(a[i]) && Lower(b)[i] == LowerChar(b[i]);
      }
    }
  }

  /** A folded text is the text, ignoring case, without upper-case letters. */
  lemma LowerExactly(s: string)
    ensures EqIgnoreCase(Lower(s), s)
    ensures forall i :: 0 <= i < |s| ==> !('A' <= Lower(s)[i] <= 'Z') && SameLetter(Lower(s)[i], s[i])
  {
  }

  predicate StartsWith(s: string, prefix: string) {
    prefix <= s
  }

  predicate EndsWith(s: string, suffix: string) {
    |suffix| <= |s| && s[|s| - |suffix|..] == suffix
  }

  predicate Blank(c: char) {
    c == ' ' || '\t' <= c <= '\r'
  }

  function TrimStart(s: string): string {
    if s != [] && Blank(s[0]) then TrimStart(s[1..]) else s
  }

  function TrimEnd(s: string): string {
    if s != [] && Blank(s[|s| - 1]) then TrimEnd(s[..|s| - 1]) else s
  }

  function Trim(s: string): string {
    TrimEnd(TrimStart(s))
  }

  predicate AllBlank(s: string) {
    forall c :: c in s ==> c in {' ', '\t', '\n', '\U{0B}', '\U{0C}', '\r'}
  }

  /** Trimming takes the blanks at both ends, and nothing else. */
  lemma TrimExactly(s: string) returns (front: string, back: string)
    ensures s == front + Trim(s) + back && AllBlank(front) && AllBlank(back)
    ensures Trim(s) != "" ==> !AllBlank(Trim(s)[..1]) && !AllBlank(Trim(s)[|Trim(s)| - 1..])
  {
    front := TrimStartExactly(s);
    back := TrimEndExactly(TrimStart(s));
    assert front + (Trim(s) + back) == front + Trim(s) + back;
  }

  lemma {:induction false} TrimStartExactly(s: string) returns (front: string)
    ensures s == front + TrimStart(s) && AllBlank(front)
    ensures TrimStart(s) != "" ==> !AllBlank(TrimStart(s)[..1])
  {
    if s != [] && Blank(s[0]) {
      front := TrimStartExactly(s[1..]);
      front := [s[0]] + front;
    } else {
      front := "";
      assert s != "" ==> s[0] in s[..1];
    }
  }

  lemma {:induction false} TrimEndExactly(s: string) returns (back: string)
    ensures s == TrimEnd(s) + back && AllBlank(back)
    ensures TrimEnd(s) != "" ==> TrimEnd(s)[..1] == s[..1] && !AllBlank(TrimEnd(s)[|TrimEnd(s)| - 1..])
  {
    if s != [] && Blank(s[|s| - 1]) {
      var front, last := s[..|s| - 1], s[|s| - 1];
      back := TrimEndExactly(front);
      OneBlankMore(s, TrimEnd(front), back, last);
      back := back + [last];
    } else {
      back := "";
      assert s != "" ==> s[|s| - 1] in s[|s| - 1..];
    }
  }

  lemma OneBlankMore(s: string, kept: string, back: string, last: char)
    requires s != "" && s[..|s| - 1] == kept + back && s[|s| - 1] == last && AllBlank(back) && Blank(last)
    ensures s == kept + (back + [last]) && AllBlank(back + [last])
    ensures kept != "" ==> s[..|s| - 1][..1] == s[..1]
  {
    assert s == s[..|s| - 1] + [last];
  }

  /** The pieces between separators: one more than there are separators. */
  function Split(s: string, sep: char): (r: seq<string>)
    ensures r != []
  {
    if s == [] then [[]]
    else
      var rest := Split(s[1..], sep);
      if s[0] == sep then [[]] + rest else [[s[0]] + rest[0]] + rest[1..]
  }

  function Join(pieces: seq<string>, sep: char): string
    requires pieces != []
  {
    if |pieces| == 1 then pieces[0] else pieces[0] + [sep] + Join(pieces[1..], sep)
  }

  lemma {:induction false} SplitAround(a: string, b: string, sep: char)
    ensures Split(a + [sep] + b, sep) == Split(a, sep) + Split(b, sep)
  {
    var s := a + [sep] + b;
    if a == [] {
      assert s[1..] == b;
    } else {
      assert s[1..] == a[1..] + [sep] + b;
      SplitAround(a[1..], b, sep);
    }
  }

  lemma {:induction false} JoinSplit(s: string, sep: char)
    ensures Join(Split(s, sep), sep) == s
  {
    if s == [] {
    } else {
      JoinSplit(s[1..], sep);
      var rest := Split(s[1..], sep);
      if s[0] == sep {
        assert ([[]] + rest)[1..] == rest;
      } else {
        assert ([[s[0]] + rest[0]] + rest[1..])[1..] == rest[1..];
      }
      assert s == [s[0]] + s[1..];
    }
  }

  /** No piece holds a separator; with `JoinSplit`, these are the pieces and no others. */
  lemma {:induction false} SplitExactly(s: string, sep: char)
    ensures forall i :: 0 <= i < |Split(s, sep)| ==> sep !in Split(s, sep)[i]
  {
    if s == [] {
    } else {
      SplitExactly(s[1..], sep);
    }
  }

  lemma {:induction false} JoinAround(a: seq<string>, b: seq<string>, sep: char)
    requires a != [] && b != []
    ensures Join(a + b, sep) == Join(a, sep) + [sep] + Join(b, sep)
  {
    assert (a + b)[1..] == a[1..] + b;
    if |a| > 1 {
      JoinAround(a[1..], b, sep);
      assert a[0] + [sep] + (Join(a[1..], sep) + [sep] + Join(b, sep))
             == a[0] + [sep] + Join(a[1..], sep) + [sep] + Join(b, sep);
    } else {
      assert a[1..] + b == b;
    }
  }
}
