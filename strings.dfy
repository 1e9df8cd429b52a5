/** The text utilities: capitalize, toCamelCase, toPascalCase and isPalindrome. */
module Strings {
  import opened Ascii
  import opened Seqs
  import JsValue

  // ---------------------------------------------------------------- capitalize

  /** capitalize: the first character of a non-empty string upper-cased, "" for
      the empty string and for every value that is not a string. */
  function Capitalize(v: JsValue.Value): (r: string)
    ensures !v.Str? || v.s == [] ==> r == ""
    ensures v.Str? && v.s != [] ==> |r| == |v.s| && r[0] == Upper(v.s[0]) && r[1..] == v.s[1..]
  {
    if v.Str? && v.s != [] then [Upper(v.s[0])] + v.s[1..] else ""
  }

  /** Capitalizing a capitalized string changes nothing. */
  lemma CapitalizeIdempotent(v: JsValue.Value)
    ensures Capitalize(JsValue.Str(Capitalize(v))) == Capitalize(v)
  {
  }

  lemma CapitalizeExamples()
    ensures Capitalize(JsValue.Str("hello")) == "Hello"
    ensures Capitalize(JsValue.Str("Hello")) == "Hello"
  {
    assert Upper('h') == 'H' && Upper('H') == 'H';
  }

  // ------------------------------------------------------ camelCase, PascalCase

  predicate IsDelimiter(c: char) { c == '-' || c == '_' }

  /** The first replacement, `/[-_](.)/g` with the captured character upper-cased:
      scanning left to right, a delimiter followed by a character other than a
      line terminator is replaced by that character upper-cased and the scan
      resumes after it; every other character is copied. */
  function ReplaceDelimiters(s: string): (r: string)
    ensures |r| <= |s|
  {
    if s == [] then []
    else if |s| >= 2 && IsDelimiter(s[0]) && !IsLineTerminator(s[1]) then
      [Upper(s[1])] + ReplaceDelimiters(s[2..])
    else [s[0]] + ReplaceDelimiters(s[1..])
  }

  /** The second replacement, `/^\w/`: the first character, when it is a word
      character, mapped through `f`. */
  function MapFirstWordChar(s: string, f: char -> char): (r: string)
    ensures |r| == |s|
    ensures forall i :: 0 < i < |s| ==> r[i] == s[i]
    ensures s != [] && !IsWordChar(s[0]) ==> r == s
  {
    if s != [] && IsWordChar(s[0]) then [f(s[0])] + s[1..] else s
  }

  /** toCamelCase */
  function ToCamelCase(s: string): (r: string)
    ensures |r| == |ReplaceDelimiters(s)|
    ensures r != [] ==> !IsUpper(r[0])
  {
    MapFirstWordChar(ReplaceDelimiters(s), Lower)
  }

  /** toPascalCase: the same string as toCamelCase except at the first position. */
  function ToPascalCase(s: string): (r: string)
    ensures |r| == |ToCamelCase(s)|
    ensures forall i :: 0 < i < |r| ==> r[i] == ToCamelCase(s)[i]
    ensures r != [] ==> !IsLower(r[0])
  {
    MapFirstWordChar(ReplaceDelimiters(s), Upper)
  }

  predicate DelimiterFree(s: string) {
    forall i :: 0 <= i < |s| ==> !IsDelimiter(s[i])
  }

  /** Every delimiter is followed by a character the replacement upper-cases
      into something other than a delimiter. */
  predicate CleanlyDelimited(s: string) {
    forall i :: 0 <= i < |s| && IsDelimiter(s[i]) ==>
      i + 1 < |s| && !IsDelimiter(s[i + 1]) && !IsLineTerminator(s[i + 1])
  }

  /** A string without delimiters passes the first replacement unchanged. */
  lemma {:induction false} ReplaceDelimitersFree(s: string)
    requires DelimiterFree(s)
    ensures ReplaceDelimiters(s) == s
  {
    if s != [] {
      ReplaceDelimitersFree(s[1..]);
    }
  }

  /** In a cleanly delimited string every delimiter is consumed with its
      successor, so no delimiter survives the first replacement. */
  lemma {:induction false} ReplaceDelimitersClean(s: string)
    requires CleanlyDelimited(s)
    ensures DelimiterFree(ReplaceDelimiters(s))
    decreases |s|
  {
    if s != [] {
      if |s| >= 2 && IsDelimiter(s[0]) && !IsLineTerminator(s[1]) {
        assert CleanlyDelimited(s[2..]) by {
          forall i | 0 <= i < |s[2..]| && IsDelimiter(s[2..][i])
            ensures i + 1 < |s[2..]| && !IsDelimiter(s[2..][i + 1]) && !IsLineTerminator(s[2..][i + 1])
          {
            assert s[2..][i] == s[i + 2];
          }
        }
        ReplaceDelimitersClean(s[2..]);
      } else {
        assert CleanlyDelimited(s[1..]) by {
          forall i | 0 <= i < |s[1..]| && IsDelimiter(s[1..][i])
            ensures i + 1 < |s[1..]| && !IsDelimiter(s[1..][i + 1]) && !IsLineTerminator(s[1..][i + 1])
          {
            assert s[1..][i] == s[i + 1];
          }
        }
        ReplaceDelimitersClean(s[1..]);
      }
    }
  }

  /** Names that are already camelCase stay as they are. */
  lemma CamelCaseOfDelimiterFree(s: string)
    requires DelimiterFree(s)
    ensures ToCamelCase(s) == MapFirstWordChar(s, Lower)
  {
    ReplaceDelimitersFree(s);
  }

  /** For a string without delimiters, toPascalCase is capitalize. */
  lemma PascalCaseIsCapitalize(s: string)
    requires DelimiterFree(s)
    ensures ToPascalCase(s) == Capitalize(JsValue.Str(s))
  {
    ReplaceDelimitersFree(s);
  }

  /** On a cleanly delimited string toCamelCase is idempotent. */
  lemma CamelCaseIdempotent(s: string)
    requires CleanlyDelimited(s)
    ensures ToCamelCase(ToCamelCase(s)) == ToCamelCase(s)
  {
    ReplaceDelimitersClean(s);
    var c := ToCamelCase(s);
    assert DelimiterFree(c) by {
      var t := ReplaceDelimiters(s);
      forall i | 0 <= i < |c| ensures !IsDelimiter(c[i]) {
        assert i > 0 ==> c[i] == t[i];
      }
    }
    ReplaceDelimitersFree(c);
  }

  /** On a cleanly delimited string toPascalCase is idempotent. */
  lemma PascalCaseIdempotent(s: string)
    requires CleanlyDelimited(s)
    ensures ToPascalCase(ToPascalCase(s)) == ToPascalCase(s)
  {
    ReplaceDelimitersClean(s);
    var p := ToPascalCase(s);
    assert DelimiterFree(p) by {
      var t := ReplaceDelimiters(s);
      forall i | 0 <= i < |p| ensures !IsDelimiter(p[i]) {
        assert i > 0 ==> p[i] == t[i];
      }
    }
    ReplaceDelimitersFree(p);
  }

  /** After a delimiter-free prefix, a delimiter followed by a character other
      than a line terminator is dropped and that character upper-cased; the scan
      then resumes after it, so the rest is replaced in turn. */
  lemma {:induction false} ReplaceAfterPrefix(a: string, d: char, c: char, b: string)
    requires DelimiterFree(a) && IsDelimiter(d) && !IsLineTerminator(c)
    ensures ReplaceDelimiters(a + [d, c] + b) == a + [Upper(c)] + ReplaceDelimiters(b)
  {
    if a == [] {
      assert ([d, c] + b)[2..] == b;
    } else {
      assert (a + [d, c] + b)[1..] == a[1..] + [d, c] + b;
      ReplaceAfterPrefix(a[1..], d, c, b);
    }
  }

  /** A delimiter at the end, or before a line terminator, has nothing to
      capture and is copied. */
  lemma {:induction false} ReplaceKeepsDelimiter(a: string, d: char, b: string)
    requires DelimiterFree(a) && IsDelimiter(d) && (b == [] || IsLineTerminator(b[0]))
    ensures ReplaceDelimiters(a + [d] + b) == a + [d] + ReplaceDelimiters(b)
  {
    if a == [] {
      assert ([d] + b)[1..] == b;
    } else {
      assert (a + [d] + b)[1..] == a[1..] + [d] + b;
      ReplaceKeepsDelimiter(a[1..], d, b);
    }
  }

  /** A single delimiter between two delimiter-free words is dropped and the
      character after it upper-cased. */
  lemma ReplaceOneDelimiter(a: string, d: char, c: char, b: string)
    requires DelimiterFree(a) && DelimiterFree(b) && IsDelimiter(d) && !IsLineTerminator(c)
    ensures ReplaceDelimiters(a + [d, c] + b) == a + [Upper(c)] + b
  {
    ReplaceAfterPrefix(a, d, c, b);
    ReplaceDelimitersFree(b);
  }

  /** "foo-bar_baz": every delimiter of a word list is replaced. */
  lemma ReplaceTwoDelimiters(a: string, c1: char, b: string, c2: char, e: string)
    requires DelimiterFree(a) && DelimiterFree(b) && DelimiterFree(e)
    requires !IsLineTerminator(c1) && !IsLineTerminator(c2)
    ensures ReplaceDelimiters(a + ['-', c1] + b + ['_', c2] + e)
         == a + [Upper(c1)] + b + [Upper(c2)] + e
  {
    assert a + ['-', c1] + b + ['_', c2] + e == a + ['-', c1] + (b + ['_', c2] + e);
    ReplaceAfterPrefix(a, '-', c1, b + ['_', c2] + e);
    ReplaceOneDelimiter(b, '_', c2, e);
  }

  lemma HelloWorldReplaced()
    ensures ReplaceDelimiters("hello-world") == "helloWorld"
  {
    assert "hello-world" == "hello" + ['-', 'w'] + "orld";
    ReplaceOneDelimiter("hello", '-', 'w', "orld");
    assert "hello" + [Upper('w')] + "orld" == "helloWorld";
  }

  /** When the first replacement gives `t` and `t` starts with a word
      character, only that character differs between the two conversions. */
  lemma CasesOfReplaced(s: string, t: string)
    requires ReplaceDelimiters(s) == t && t != [] && IsWordChar(t[0])
    ensures ToCamelCase(s) == [Lower(t[0])] + t[1..]
    ensures ToPascalCase(s) == [Upper(t[0])] + t[1..]
  {
  }

  lemma HelloWorldCamel()
    ensures ToCamelCase("hello-world") == "helloWorld"
  {
    HelloWorldReplaced();
    CasesOfReplaced("hello-world", "helloWorld");
    assert [Lower('h')] + "elloWorld" == "helloWorld";
  }

  lemma HelloWorldPascal()
    ensures ToPascalCase("hello-world") == "HelloWorld"
  {
    HelloWorldReplaced();
    CasesOfReplaced("hello-world", "helloWorld");
    CapitalHelloWorld();
  }

  lemma CapitalHelloWorld()
    ensures [Upper("helloWorld"[0])] + "helloWorld"[1..] == "HelloWorld"
  {
    assert Upper('h') == 'H';
  }

  // -------------------------------------------------------------- isPalindrome

  /** `replace(/[\W_]/g, "")`: only ASCII letters and digits survive. */
  function StripNonAlnum(s: string): (r: string)
    ensures forall i :: 0 <= i < |r| ==> IsAlnum(r[i])
  {
    Filter(IsAlnum, s)
  }

  /** The string isPalindrome compares with its own reverse. */
  function Normalized(s: string): (r: string)
    ensures forall i :: 0 <= i < |r| ==> IsAlnum(r[i]) && !IsUpper(r[i])
  {
    LowerAll(StripNonAlnum(s))
  }

  /** isPalindrome on a string: the normalized string reads the same in both directions. */
  function IsPalindrome(s: string): (r: bool)
    ensures r <==> forall i :: 0 <= i < |Normalized(s)| ==>
                      Normalized(s)[i] == Normalized(s)[|Normalized(s)| - 1 - i]
  {
    var n := Normalized(s);
    ReverseEqualIff(n);
    n == Reverse(n)
  }

  lemma LowerAllReverse(s: string)
    ensures LowerAll(Reverse(s)) == Reverse(LowerAll(s))
  {
    var a, b := LowerAll(Reverse(s)), Reverse(LowerAll(s));
    forall i | 0 <= i < |s| ensures a[i] == b[i] {
      ReverseAt(s, i);
      ReverseAt(LowerAll(s), i);
    }
  }

  /** Normalization commutes with reversal. */
  lemma NormalizedReverse(s: string)
    ensures Normalized(Reverse(s)) == Reverse(Normalized(s))
  {
    FilterReverse(IsAlnum, s);
    LowerAllReverse(StripNonAlnum(s));
  }

  /** A string and its reverse get the same answer. */
  lemma IsPalindromeReverse(s: string)
    ensures IsPalindrome(Reverse(s)) == IsPalindrome(s)
  {
    NormalizedReverse(s);
    var n := Normalized(s);
    var m := Normalized(Reverse(s));
    if IsPalindrome(s) {
      forall i | 0 <= i < |m| ensures m[i] == m[|m| - 1 - i] {
        ReverseAt(n, i);
        ReverseAt(n, |m| - 1 - i);
      }
    } else {
      var i :| 0 <= i < |n| && n[i] != n[|n| - 1 - i];
      ReverseAt(n, |n| - 1 - i);
      ReverseAt(n, i);
      assert m[|m| - 1 - i] != m[i];
    }
  }

  /** A string with no letters or digits is a palindrome. */
  lemma IsPalindromeWithoutAlnum(s: string)
    requires forall i :: 0 <= i < |s| ==> !IsAlnum(s[i])
    ensures IsPalindrome(s)
  {
    FilterNone(s);
  }

  lemma {:induction false} FilterNone(s: string)
    requires forall i :: 0 <= i < |s| ==> !IsAlnum(s[i])
    ensures StripNonAlnum(s) == []
  {
    if s != [] {
      FilterNone(s[1..]);
    }
  }

  /** Text of lower-case letters and digits is its own normalization. */
  lemma NormalizedOfLowerAlnum(s: string)
    requires forall i :: 0 <= i < |s| ==> IsAlnum(s[i]) && !IsUpper(s[i])
    ensures Normalized(s) == s
  {
    FilterAll(IsAlnum, s);
  }

  /** Lower-case letters and digits that read the same both ways form a palindrome. */
  lemma MirroredIsPalindrome(s: string)
    requires forall i :: 0 <= i < |s| ==> IsAlnum(s[i]) && !IsUpper(s[i])
    requires forall i :: 0 <= i < |s| ==> s[i] == s[|s| - 1 - i]
    ensures IsPalindrome(s)
  {
    NormalizedOfLowerAlnum(s);
  }

  lemma RacecarIsPalindrome()
    ensures IsPalindrome("racecar")
  {
    MirroredIsPalindrome("racecar");
  }

  lemma HelloIsNotPalindrome()
    ensures !IsPalindrome("hello")
  {
    NormalizedOfLowerAlnum("hello");
    assert "hello"[0] != "hello"[4];
  }
}
