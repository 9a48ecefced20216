/** The file names `poll` in main.js writes contests under:
    `removeSpecialChars(entry.name) + "-" + removeSpecialChars(FileName) + ".xml"`. */
module FileNames {
  import opened Wrappers

  /** The characters `removeSpecialChars` gets rid of. */
  predicate IsSpecial(c: char) {
    c == '/' || c == '\\' || c == ',' || c == '.'
  }

  /** `s.replaceAll(c, replacement)` for a one-character pattern `c`. */
  function ReplaceAllChar(s: string, c: char, replacement: string): (r: string)
    ensures forall d :: d in r ==> (d in s && d != c) || d in replacement
  {
    if s == [] then []
    else (if s[0] == c then replacement else [s[0]]) + ReplaceAllChar(s[1..], c, replacement)
  }

  /** `removeSpecialChars`: the four `replaceAll` passes in source order. */
  function RemoveSpecialChars(value: string): (r: string)
    ensures forall d :: d in r ==> !IsSpecial(d)
  {
    var noSlash := ReplaceAllChar(value, '/', "-");
    var noBackslash := ReplaceAllChar(noSlash, '\\', "-");
    var noComma := ReplaceAllChar(noBackslash, ',', "-");
    ReplaceAllChar(noComma, '.', "")
  }

  /** What one character becomes: `/`, `\` and `,` a hyphen, `.` nothing,
      anything else itself. */
  function SafeChar(c: char): string {
    if c == '/' || c == '\\' || c == ',' then "-" else if c == '.' then "" else [c]
  }

  /** A one-pass reference for `removeSpecialChars`, character by character. */
  function SafeString(s: string): string {
    if s == [] then [] else SafeChar(s[0]) + SafeString(s[1..])
  }

  /** The number of `.` in `s`. */
  function DotCount(s: string): nat {
    if s == [] then 0 else (if s[0] == '.' then 1 else 0) + DotCount(s[1..])
  }

  lemma {:induction false} ReplaceAllCharConcat(a: string, b: string, c: char, replacement: string)
    ensures ReplaceAllChar(a + b, c, replacement) == ReplaceAllChar(a, c, replacement) + ReplaceAllChar(b, c, replacement)
  {
    if a == [] {
      assert a + b == b;
    } else {
      assert (a + b)[0] == a[0];
      assert (a + b)[1..] == a[1..] + b;
      ReplaceAllCharConcat(a[1..], b, c, replacement);
    }
  }

  /** The passes work character by character, so the whole works on the
      parts of a concatenation separately. */
  lemma RemoveSpecialCharsConcat(a: string, b: string)
    ensures RemoveSpecialChars(a + b) == RemoveSpecialChars(a) + RemoveSpecialChars(b)
  {
    ReplaceAllCharConcat(a, b, '/', "-");
    var a1, b1 := ReplaceAllChar(a, '/', "-"), ReplaceAllChar(b, '/', "-");
    ReplaceAllCharConcat(a1, b1, '\\', "-");
    var a2, b2 := ReplaceAllChar(a1, '\\', "-"), ReplaceAllChar(b1, '\\', "-");
    ReplaceAllCharConcat(a2, b2, ',', "-");
    var a3, b3 := ReplaceAllChar(a2, ',', "-"), ReplaceAllChar(b2, ',', "-");
    ReplaceAllCharConcat(a3, b3, '.', "");
  }

  /** The four chained passes agree with the one-pass reference: since no
      replacement introduces a character a later pass removes, the order of
      the passes does not matter. */
  lemma {:induction false} RemoveSpecialCharsIsSafeString(s: string)
    ensures RemoveSpecialChars(s) == SafeString(s)
  {
    if s != [] {
      assert s == [s[0]] + s[1..];
      RemoveSpecialCharsConcat([s[0]], s[1..]);
      RemoveSpecialCharsIsSafeString(s[1..]);
      assert RemoveSpecialChars([s[0]]) == SafeChar(s[0]);
    }
  }

  lemma {:induction false} SafeStringLength(s: string)
    ensures |SafeString(s)| == |s| - DotCount(s)
  {
    if s != [] {
      SafeStringLength(s[1..]);
    }
  }

  lemma {:induction false} SafeStringKeepsSafe(s: string)
    requires forall d :: d in s ==> !IsSpecial(d)
    ensures SafeString(s) == s
  {
    if s != [] {
      assert s[0] in s;
      assert forall d :: d in s[1..] ==> d in s;
      SafeStringKeepsSafe(s[1..]);
    }
  }

  /** Each `.` is deleted and every other character kept, so the length
      drops by the number of dots. */
  lemma RemoveSpecialCharsLength(value: string)
    ensures |RemoveSpecialChars(value)| == |value| - DotCount(value)
  {
    RemoveSpecialCharsIsSafeString(value);
    SafeStringLength(value);
  }

  /** Removing special characters twice is removing them once. */
  lemma RemoveSpecialCharsIdempotent(value: string)
    ensures RemoveSpecialChars(RemoveSpecialChars(value)) == RemoveSpecialChars(value)
  {
    var once := RemoveSpecialChars(value);
    RemoveSpecialCharsIsSafeString(once);
    SafeStringKeepsSafe(once);
  }

  /** A name `poll` can write under without leaving the output directory or
      changing the extension: `.xml` at the end, and no `/`, `\`, `,` or `.`
      before it. */
  ghost predicate IsSafeContestFileName(f: string) {
    |f| >= 4 && f[|f| - 4..] == ".xml" && forall k :: 0 <= k < |f| - 4 ==> !IsSpecial(f[k])
  }

  /** The contest file name. `undefined.replaceAll` throws, so a missing
      entry name or `FileName` gives `None`. */
  function ContestFileName(name: Option<string>, fileName: Option<string>): (r: Option<string>)
    ensures r.Some? <==> name.Some? && fileName.Some?
    ensures r.Some? ==> IsSafeContestFileName(r.value)
    ensures r.Some? ==>
      r.value[..|r.value| - 4] == RemoveSpecialChars(name.value) + "-" + RemoveSpecialChars(fileName.value)
  {
    if name.None? || fileName.None? then None
    else
      var stem := RemoveSpecialChars(name.value) + "-" + RemoveSpecialChars(fileName.value);
      var f := stem + ".xml";
      assert f[..|f| - 4] == stem && f[|f| - 4..] == ".xml";
      assert forall k :: 0 <= k < |stem| ==> stem[k] in stem;
      Some(f)
  }

  /** Distinct `FileName`s can share one file: "A.B" and "AB" both give the
      same name under entry "N", so the contest written later replaces the
      earlier one. */
  lemma ContestFileNamesCanCollide()
    ensures ContestFileName(Some("N"), Some("A.B")) == ContestFileName(Some("N"), Some("AB"))
  {
    assert RemoveSpecialChars("N") == "N" by {
      SafeStringKeepsSafe("N");
      RemoveSpecialCharsIsSafeString("N");
    }
    assert RemoveSpecialChars("AB") == "AB" by {
      SafeStringKeepsSafe("AB");
      RemoveSpecialCharsIsSafeString("AB");
    }
    assert RemoveSpecialChars("A.B") == "AB" by {
      RemoveSpecialCharsIsSafeString("A.B");
      assert "A.B"[1..] == ".B" && ".B"[1..] == "B";
      assert SafeString("B") == "B";
      assert SafeString(".B") == "B";
    }
  }
}
