/**
 * The file-name sanitizer of `process_card_attachments`: an attachment is saved
 * under `card_name + "_" + attachment_name` with every character dropped that is
 * neither alphanumeric nor one of space, dot, hyphen and underscore.
 *
 * Python's `str.isalnum` consults the Unicode tables; it is kept abstract here as
 * the parameter `isAlnum`, so every property below holds whatever those tables say.
 */
module FileNames {

  /** The characters the sanitizer lets through besides the alphanumeric ones. */
  predicate IsPunctuationKept(c: char)
  {
    c == ' ' || c == '.' || c == '-' || c == '_'
  }

  /** A character the sanitizer keeps. */
  predicate Allowed(isAlnum: char -> bool, c: char)
  {
    isAlnum(c) || IsPunctuationKept(c)
  }

  /** Every character of `s` is one the sanitizer keeps. */
  ghost predicate AllAllowed(isAlnum: char -> bool, s: string)
  {
    forall i :: 0 <= i < |s| ==> Allowed(isAlnum, s[i])
  }

  /** `t` is `s` with some characters removed and the rest in their original order. */
  ghost predicate IsSubsequence(t: string, s: string)
  {
    if t == [] then true
    else if s == [] then false
    else (t[0] == s[0] && IsSubsequence(t[1..], s[1..])) || IsSubsequence(t, s[1..])
  }

  /** The generator-expression filter: the allowed characters of `s`, in order. */
  function Sanitize(isAlnum: char -> bool, s: string): (r: string)
    ensures |r| <= |s|
    ensures AllAllowed(isAlnum, r)
  {
    if s == [] then []
    else
      var rest := Sanitize(isAlnum, s[1..]);
      if Allowed(isAlnum, s[0]) then [s[0]] + rest else rest
  }

  /** Each character occurs in the result as often as in the input when it is allowed, and never otherwise. */
  lemma {:induction false} SanitizeCounts(isAlnum: char -> bool, s: string)
    ensures forall c :: multiset(Sanitize(isAlnum, s))[c] == if Allowed(isAlnum, c) then multiset(s)[c] else 0
  {
    if s != [] {
      SanitizeCounts(isAlnum, s[1..]);
      assert s == [s[0]] + s[1..];
    }
  }

  /** The result is an order-preserving subsequence of the input. */
  lemma {:induction false} SanitizeIsSubsequence(isAlnum: char -> bool, s: string)
    ensures IsSubsequence(Sanitize(isAlnum, s), s)
  {
    if s != [] {
      SanitizeIsSubsequence(isAlnum, s[1..]);
    }
  }

  /** An allowed-only subsequence of `s` is at most as long as the sanitized `s`. */
  lemma {:induction false} AllowedSubsequenceBound(isAlnum: char -> bool, t: string, s: string)
    requires IsSubsequence(t, s) && AllAllowed(isAlnum, t)
    ensures |t| <= |Sanitize(isAlnum, s)|
  {
    if t != [] {
      if t[0] == s[0] && IsSubsequence(t[1..], s[1..]) {
        AllowedSubsequenceBound(isAlnum, t[1..], s[1..]);
      } else {
        AllowedSubsequenceBound(isAlnum, t, s[1..]);
      }
    }
  }

  /**
   * The sanitized name is the one longest subsequence of the input made of allowed
   * characters: any other allowed-only subsequence is shorter.
   */
  lemma {:induction false} SanitizeIsLongestAllowedSubsequence(isAlnum: char -> bool, t: string, s: string)
    requires IsSubsequence(t, s) && AllAllowed(isAlnum, t)
    ensures |t| <= |Sanitize(isAlnum, s)|
    ensures |t| == |Sanitize(isAlnum, s)| ==> t == Sanitize(isAlnum, s)
  {
    AllowedSubsequenceBound(isAlnum, t, s);
    if t != [] && |t| == |Sanitize(isAlnum, s)| {
      if t[0] == s[0] && IsSubsequence(t[1..], s[1..]) {
        SanitizeIsLongestAllowedSubsequence(isAlnum, t[1..], s[1..]);
      } else {
        AllowedSubsequenceBound(isAlnum, t, s[1..]);
        SanitizeIsLongestAllowedSubsequence(isAlnum, t, s[1..]);
      }
    }
  }

  /** Sanitizing a sanitized name changes nothing. */
  lemma {:induction false} SanitizeIdempotent(isAlnum: char -> bool, s: string)
    ensures Sanitize(isAlnum, Sanitize(isAlnum, s)) == Sanitize(isAlnum, s)
  {
    if s != [] {
      SanitizeIdempotent(isAlnum, s[1..]);
    }
  }

  /** A name made only of allowed characters is left as it is. */
  lemma {:induction false} SanitizeKeepsAllowedNames(isAlnum: char -> bool, s: string)
    requires AllAllowed(isAlnum, s)
    ensures Sanitize(isAlnum, s) == s
  {
    if s != [] {
      SanitizeKeepsAllowedNames(isAlnum, s[1..]);
    }
  }

  /** The filter distributes over concatenation. */
  lemma {:induction false} SanitizeAppend(isAlnum: char -> bool, a: string, b: string)
    ensures Sanitize(isAlnum, a + b) == Sanitize(isAlnum, a) + Sanitize(isAlnum, b)
  {
    if a == [] {
      assert a + b == b;
    } else {
      assert (a + b)[0] == a[0] && (a + b)[1..] == a[1..] + b;
      SanitizeAppend(isAlnum, a[1..], b);
    }
  }

  /**
   * A space survives sanitizing: the result holds one exactly when the input does.
   * Nothing trims the name or turns its spaces into hyphens.
   */
  lemma SpacesSurvive(isAlnum: char -> bool, s: string)
    ensures ' ' in Sanitize(isAlnum, s) <==> ' ' in s
  {
    SanitizeCounts(isAlnum, s);
    assert multiset(Sanitize(isAlnum, s))[' '] == multiset(s)[' '];
  }

  /**
   * The name an attachment is saved under: the sanitized `card_name + "_" + attachment_name`.
   * As `_` is kept, it is the two names sanitized apart and joined by `_`; it is never
   * empty, `.` or `..`, and holds no `/` when `/` is not alphanumeric.
   */
  function AttachmentFileName(isAlnum: char -> bool, cardName: string, attachmentName: string): (r: string)
    ensures r == Sanitize(isAlnum, cardName) + "_" + Sanitize(isAlnum, attachmentName)
    ensures '_' in r && r != "." && r != ".."
    ensures !isAlnum('/') ==> '/' !in r
  {
    var tail := "_" + attachmentName;
    assert tail[0] == '_' && tail[1..] == attachmentName;
    assert Sanitize(isAlnum, tail) == "_" + Sanitize(isAlnum, attachmentName);
    SanitizeAppend(isAlnum, cardName, tail);
    assert cardName + "_" + attachmentName == cardName + tail;
    var r := Sanitize(isAlnum, cardName + "_" + attachmentName);
    assert r[|Sanitize(isAlnum, cardName)|] == '_';
    r
  }

  /** The card name of the worked case below: `#` dropped, the space kept. */
  lemma ExampleCardName(isAlnum: char -> bool)
    requires isAlnum('T') && isAlnum('a') && isAlnum('s') && isAlnum('k') && isAlnum('1')
    requires !isAlnum('#')
    ensures Sanitize(isAlnum, "Task #1") == "Task 1"
  {
    assert "Task #1" == "Task " + ("#" + "1");
    SanitizeKeepsAllowedNames(isAlnum, "Task ");
    SanitizeKeepsAllowedNames(isAlnum, "1");
    assert Sanitize(isAlnum, "#") == "";
    SanitizeAppend(isAlnum, "#", "1");
    SanitizeAppend(isAlnum, "Task ", "#" + "1");
  }

  /**
   * A worked case: for card "Task #1" and attachment "a.png" the file is saved as
   * "Task 1_a.png" (the `#` dropped, the space kept, no hyphens introduced), given
   * that the letters and digits are alphanumeric and `#` is not.
   */
  lemma ExampleFileName(isAlnum: char -> bool)
    requires isAlnum('T') && isAlnum('a') && isAlnum('s') && isAlnum('k') && isAlnum('1')
    requires isAlnum('p') && isAlnum('n') && isAlnum('g')
    requires !isAlnum('#')
    ensures AttachmentFileName(isAlnum, "Task #1", "a.png") == "Task 1_a.png"
  {
    ExampleCardName(isAlnum);
    SanitizeKeepsAllowedNames(isAlnum, "a.png");
    assert "Task 1" + "_" + "a.png" == "Task 1_a.png";
  }
}
