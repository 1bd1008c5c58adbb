/** Check characters, classification and conversion of book codes, as the
    card plugin computes them. The arithmetic follows the JavaScript code, not
    ISO 2108: there is no final reduction of the check value, so a remainder of
    zero yields a character that is not a digit, and neither test looks at the
    length of the code. Lemmas at the end relate the two. */
module Isbn {
  import opened Wrappers
  import opened JsString

  /** `code.charCodeAt(i) - '0'.charCodeAt(0)` for an index inside the string. */
  function DigitValue(c: char): int
  {
    c as int - '0' as int
  }

  /** `code.charCodeAt(i)`, with `None` for the NaN it gives past the end. */
  function CharCodeAt(s: string, i: nat): Option<int>
  {
    if i < |s| then Some(s[i] as int) else None
  }

  predicate IsDigit(c: char)
  {
    '0' <= c <= '9'
  }

  predicate AllDigits(s: string)
  {
    forall i :: 0 <= i < |s| ==> IsDigit(s[i])
  }

  /** Weight of position `i` in the 10-form: 10 down to 2 over the nine body characters. */
  function Weight10(i: nat): int
  {
    10 - i
  }

  /** Weight of position `i` in the 13-form: 1, 3, 1, 3, ... */
  function Weight13(i: nat): int
  {
    if i % 2 == 0 then 1 else 3
  }

  /** The weighted sum of the first `n` character values, accumulated in index
      order as the loops of `checksum10` and `checksum13` do. */
  function WeightedSum(code: string, n: nat, weight: nat -> int): int
    requires n <= |code|
  {
    if n == 0 then 0
    else WeightedSum(code, n - 1, weight) + DigitValue(code[n - 1]) * weight(n - 1)
  }

  /** The sum depends on the first `n` characters only. */
  lemma {:induction false} WeightedSumPrefix(a: string, b: string, n: nat, weight: nat -> int)
    requires n <= |a| && n <= |b| && a[..n] == b[..n]
    ensures WeightedSum(a, n, weight) == WeightedSum(b, n, weight)
  {
    if n > 0 {
      assert a[n - 1] == a[..n][n - 1];
      assert b[n - 1] == b[..n][n - 1];
      assert a[..n - 1] == a[..n][..n - 1];
      assert b[..n - 1] == b[..n][..n - 1];
      WeightedSumPrefix(a, b, n - 1, weight);
    }
  }

  /** Over digits with non-negative weights the sum is non-negative, so the
      truncating and the Euclidean remainder agree on it. */
  lemma {:induction false} WeightedSumOfDigits(code: string, n: nat, weight: nat -> int)
    requires n <= |code| && AllDigits(code[..n])
    requires forall i :: 0 <= i < n ==> weight(i) >= 0
    ensures WeightedSum(code, n, weight) >= 0
  {
    if n > 0 {
      assert code[n - 1] == code[..n][n - 1];
      assert IsDigit(code[n - 1]);
      assert code[..n - 1] == code[..n][..n - 1];
      WeightedSumOfDigits(code, n - 1, weight);
      assert weight(n - 1) >= 0;
    }
  }

  /** `checksum10`: the check character of the 10-form, from the first nine
      characters. A code shorter than nine characters makes the sum NaN, which
      comes out as U+0000. The value is never reduced modulo 11, so it is never
      the digit zero. */
  function Checksum10(code: string): (r: char)
    ensures |code| < 9 ==> r == '\0'
    ensures |code| >= 9 ==> r == 'X' || ('1' <= r <= 'E' && r != ':')
  {
    if |code| < 9 then '\0'
    else
      var check := 11 - TruncRem(WeightedSum(code, 9, Weight10), 11);
      if check == 10 then 'X' else ('0' as int + check) as char
  }

  /** `checksum13`: the check character of the 13-form, from the first twelve
      characters; U+0000 for a shorter code. The value is never reduced
      modulo 10, so it is never the digit zero. */
  function Checksum13(code: string): (r: char)
    ensures |code| < 12 ==> r == '\0'
    ensures |code| >= 12 ==> '1' <= r <= 'C'
  {
    if |code| < 12 then '\0'
    else
      var check := 10 - TruncRem(WeightedSum(code, 12, Weight13), 10);
      ('0' as int + check) as char
  }

  /** The loop of `checksum10` as written, with NaN (`None`) absorbing every
      later addition once an index runs past the end of the code. */
  method Checksum10Loop(code: string) returns (r: char)
    ensures r == Checksum10(code)
  {
    var sum: Option<int> := Some(0);
    for cnt := 0 to 9
      invariant cnt <= |code| ==> sum == Some(WeightedSum(code, cnt, Weight10))
      invariant cnt > |code| ==> sum == None
    {
      match CharCodeAt(code, cnt) {
        case None =>
          sum := None;
        case Some(c) =>
          if sum.Some? {
            sum := Some(sum.value + (c - '0' as int) * (10 - cnt));
          }
      }
    }
    match sum {
      case None =>
        r := '\0';
      case Some(s) =>
        var check := 11 - TruncRem(s, 11);
        r := if check == 10 then 'X' else ('0' as int + check) as char;
    }
  }

  /** The loop of `checksum13` as written, with the same NaN treatment. */
  method Checksum13Loop(code: string) returns (r: char)
    ensures r == Checksum13(code)
  {
    var sum: Option<int> := Some(0);
    for cnt := 0 to 12
      invariant cnt <= |code| ==> sum == Some(WeightedSum(code, cnt, Weight13))
      invariant cnt > |code| ==> sum == None
    {
      match CharCodeAt(code, cnt) {
        case None =>
          sum := None;
        case Some(c) =>
          if sum.Some? {
            sum := Some(sum.value + (c - '0' as int) * (if cnt % 2 == 0 then 1 else 3));
          }
      }
    }
    match sum {
      case None =>
        r := '\0';
      case Some(s) =>
        r := ('0' as int + (10 - TruncRem(s, 10))) as char;
    }
  }

  /** `checksum10` reads the first nine characters only. */
  lemma Checksum10Prefix(a: string, b: string)
    requires |a| >= 9 && |b| >= 9 && a[..9] == b[..9]
    ensures Checksum10(a) == Checksum10(b)
  {
    WeightedSumPrefix(a, b, 9, Weight10);
  }

  /** `checksum13` reads the first twelve characters only. */
  lemma Checksum13Prefix(a: string, b: string)
    requires |a| >= 12 && |b| >= 12 && a[..12] == b[..12]
    ensures Checksum13(a) == Checksum13(b)
  {
    WeightedSumPrefix(a, b, 12, Weight13);
  }

  /** Over a digit body, `checksum10` is `X` for remainder 1, `;` for
      remainder 0, and otherwise the digit 11 minus the remainder. */
  lemma Checksum10OfDigits(code: string)
    requires |code| >= 9 && AllDigits(code[..9])
    ensures var m := WeightedSum(code, 9, Weight10) % 11;
      && (Checksum10(code) == 'X' <==> m == 1)
      && (Checksum10(code) == ';' <==> m == 0)
      && (m >= 2 ==> IsDigit(Checksum10(code)) && DigitValue(Checksum10(code)) == 11 - m)
  {
    WeightedSumOfDigits(code, 9, Weight10);
  }

  /** Over a digit body, `checksum13` is the character `'0' + (10 - remainder)`:
      a digit from 1 to 9, or `:` when the remainder is 0. */
  lemma Checksum13OfDigits(code: string)
    requires |code| >= 12 && AllDigits(code[..12])
    ensures var m := WeightedSum(code, 12, Weight13) % 10;
      && DigitValue(Checksum13(code)) == 10 - m
      && (Checksum13(code) == ':' <==> m == 0)
      && (m != 0 ==> IsDigit(Checksum13(code)))
  {
    WeightedSumOfDigits(code, 12, Weight13);
  }

  /** `isIsbn10`: the code ends with its own `checksum10` character. The
      length is not checked. */
  predicate IsIsbn10(code: string)
  {
    EndsWith(code, [Checksum10(code)])
  }

  /** `isIsbn13`: the code ends with its own `checksum13` character. The
      length is not checked. */
  predicate IsIsbn13(code: string)
  {
    EndsWith(code, [Checksum13(code)])
  }

  /** The two tests compare the last character only; a code too short to
      have a check value passes only when it ends in U+0000. */
  lemma IsIsbnLastCharacter(code: string)
    ensures IsIsbn10(code) <==> |code| > 0 && code[|code| - 1] == Checksum10(code)
    ensures IsIsbn13(code) <==> |code| > 0 && code[|code| - 1] == Checksum13(code)
    ensures |code| < 9 && (|code| == 0 || code[|code| - 1] != '\0') ==> !IsIsbn10(code)
    ensures |code| < 12 && (|code| == 0 || code[|code| - 1] != '\0') ==> !IsIsbn13(code)
  {
    if |code| > 0 {
      assert code[|code| - 1..] == [code[|code| - 1]];
    }
  }

  /** `isbn10to13`: `978`, the first nine characters, and the 13-form check
      character of those twelve. */
  function Isbn10to13(code: string): (r: string)
    ensures |r| >= 4 && r[..3] == "978"
    ensures |code| >= 9 ==> |r| == 13 && r[3..12] == code[..9] && IsIsbn13(r)
    ensures |code| < 9 ==> |r| == |code| + 4 && r[|r| - 1] == '\0'
  {
    var body := "978" + Substring(code, 0, 9);
    var r := body + [Checksum13(body)];
    assert |code| >= 9 ==> IsIsbn13(r) by {
      if |code| >= 9 {
        assert r[..12] == body[..12];
        Checksum13Prefix(r, body);
        IsIsbnLastCharacter(r);
      }
    }
    r
  }

  /** `isbn13to10`: characters 3 to 11 and the 10-form check character of
      those nine. */
  function Isbn13to10(code: string): (r: string)
    ensures |code| >= 12 ==> |r| == 10 && r[..9] == code[3..12] && IsIsbn10(r)
    ensures |r| >= 1
    ensures |code| < 12 ==> r[|r| - 1] == '\0'
  {
    var body := Substring(code, 3, 12);
    var r := body + [Checksum10(body)];
    assert |code| >= 12 ==> IsIsbn10(r) by {
      if |code| >= 12 {
        assert r[..9] == body[..9];
        Checksum10Prefix(r, body);
        IsIsbnLastCharacter(r);
      }
    }
    r
  }

  /** Converting a 10-form to the 13-form and back gives the code again. */
  lemma Isbn10RoundTrip(code: string)
    requires |code| == 10 && IsIsbn10(code)
    ensures Isbn13to10(Isbn10to13(code)) == code
  {
    var long := Isbn10to13(code);
    var back := Isbn13to10(long);
    assert back[..9] == code[..9];
    Checksum10Prefix(back, code);
    IsIsbnLastCharacter(back);
    IsIsbnLastCharacter(code);
    assert back == back[..9] + [back[9]];
    assert code == code[..9] + [code[9]];
  }

  /** Converting a `978` 13-form to the 10-form and back gives the code again. */
  lemma Isbn13RoundTrip(code: string)
    requires |code| == 13 && code[..3] == "978" && IsIsbn13(code)
    ensures Isbn10to13(Isbn13to10(code)) == code
  {
    var short := Isbn13to10(code);
    var back := Isbn10to13(short);
    assert back[..12] == back[..3] + back[3..12];
    assert code[..12] == code[..3] + code[3..12];
    assert back[3..12] == short[..9];
    Checksum13Prefix(back, code);
    IsIsbnLastCharacter(back);
    IsIsbnLastCharacter(code);
    assert back == back[..12] + [back[12]];
    assert code == code[..12] + [code[12]];
  }

  /** The numeric value ISO 2108 gives a 10-form check character. */
  function CheckValue10(c: char): int
  {
    if c == 'X' then 10 else DigitValue(c)
  }

  /** ISO 2108 validity of a 10-form: the weighted sum with weights 10 down to
      1, reading `X` as ten, is a multiple of 11. */
  predicate Iso2108Valid(code: string)
  {
    && |code| == 10
    && AllDigits(code[..9])
    && (IsDigit(code[9]) || code[9] == 'X')
    && (WeightedSum(code, 9, Weight10) + CheckValue10(code[9])) % 11 == 0
  }

  /** EAN-13 validity: the weighted sum with weights 1, 3, 1, ... over all
      thirteen digits is a multiple of 10. */
  predicate Ean13Valid(code: string)
  {
    && |code| == 13
    && AllDigits(code)
    && (WeightedSum(code, 12, Weight13) + DigitValue(code[12])) % 10 == 0
  }

  /** On a well-formed 10-form, `isIsbn10` agrees with ISO 2108 except that
      it rejects every code whose check digit is 0. */
  lemma Isbn10AgainstIso2108(code: string)
    requires |code| == 10 && AllDigits(code[..9]) && (IsDigit(code[9]) || code[9] == 'X')
    ensures IsIsbn10(code) <==> Iso2108Valid(code) && code[9] != '0'
  {
    Checksum10OfDigits(code);
    WeightedSumOfDigits(code, 9, Weight10);
    IsIsbnLastCharacter(code);
  }

  /** On thirteen digits, `isIsbn13` agrees with EAN-13 except that it rejects
      every code whose check digit is 0. */
  lemma Isbn13AgainstEan13(code: string)
    requires |code| == 13 && AllDigits(code)
    ensures IsIsbn13(code) <==> Ean13Valid(code) && code[12] != '0'
  {
    assert AllDigits(code[..12]);
    Checksum13OfDigits(code);
    WeightedSumOfDigits(code, 12, Weight13);
    IsIsbnLastCharacter(code);
    assert IsDigit(code[12]);
  }

  /** The published check characters of the reference title 0-306-40615-2 /
      978-0-306-40615-7. */
  lemma ReferenceTitle()
    ensures Checksum10("030640615") == '2'
    ensures Checksum13("978030640615") == '7'
  {
    assert WeightedSum("030640615", 9, Weight10) == 130;
    var ean := "978030640615";
    assert WeightedSum(ean, 4, Weight13) == 38;
    assert WeightedSum(ean, 8, Weight13) == 59;
    assert WeightedSum(ean, 12, Weight13) == 93;
  }

  /** The two forms of the reference title convert into each other. */
  lemma ReferenceTitleConversion()
    ensures Isbn10to13("0306406152") == "9780306406157"
    ensures Isbn13to10("9780306406157") == "0306406152"
  {
    ReferenceTitle();
    var ean := "978030640615";
    assert Substring("0306406152", 0, 9) == "030640615";
    assert forall i :: 0 <= i < 12 ==> ("978" + "030640615")[i] == ean[i];
    assert "978" + "030640615" == ean;
    assert Substring("9780306406157", 3, 12) == "030640615";
  }

  /** The example code 4-87311-923-5 in the plugin's comments: a 10-form,
      whose 13-form is 978-4-87311-923-6. */
  lemma IsbnExample()
    ensures Checksum10("4873119235") == '5'
    ensures Isbn10to13("4873119235") == "9784873119236"
  {
    var code := "4873119235";
    assert WeightedSum(code, 9, Weight10) == 248;
    var ean := "978487311923";
    assert Substring(code, 0, 9) == "487311923";
    assert "978" + "487311923" == ean;
    assert WeightedSum(ean, 4, Weight13) == 50;
    assert WeightedSum(ean, 8, Weight13) == 85;
    assert WeightedSum(ean, 12, Weight13) == 124;
  }

  /** A 979-prefixed code, 979-10-90636-07-1: it passes the 13-form test but
      not the 10-form test, and its 10-form, 1090636075, converts back to a
      different 13-form, since the conversion always prefixes `978`. */
  lemma Isbn979Example()
    ensures IsIsbn13("9791090636071") && !IsIsbn10("9791090636071")
    ensures Isbn13to10("9791090636071") == "1090636075"
    ensures Isbn10to13("1090636075") != "9791090636071"
  {
    var code := "9791090636071";
    Isbn979Checks();
    IsIsbnLastCharacter(code);
    Isbn979Body();
    Isbn979Back();
  }

  lemma Isbn979Back()
    ensures Isbn10to13("1090636075") != "9791090636071"
  {
    var back := Isbn10to13("1090636075");
    assert back[..3] == "978";
    assert "9791090636071"[..3] == "979";
  }

  lemma Isbn979Body()
    ensures Isbn13to10("9791090636071") == "1090636075"
  {
    var code := "9791090636071";
    var body := "109063607";
    assert Substring(code, 3, 12) == body;
    assert WeightedSum(body, 9, Weight10) == 171;
    assert Checksum10(body) == '5';
    assert body + "5" == "1090636075";
  }

  lemma Isbn979Checks()
    ensures Checksum13("9791090636071") == '1'
    ensures Checksum10("9791090636071") == '7'
  {
    var code := "9791090636071";
    assert WeightedSum(code, 4, Weight13) == 42;
    assert WeightedSum(code, 8, Weight13) == 87;
    assert WeightedSum(code, 12, Weight13) == 129;
    assert WeightedSum(code, 9, Weight10) == 301;
  }

  /** A 10-form ISO 2108 accepts but the plugin does not, because the check
      value is never reduced modulo 11: a zero check digit. */
  lemma ZeroCheckDigitRejected10()
    ensures Iso2108Valid("0000000000") && !IsIsbn10("0000000000")
  {
    var isbn := "0000000000";
    assert WeightedSum(isbn, 9, Weight10) == 0;
    assert Checksum10(isbn) == ';';
    IsIsbnLastCharacter(isbn);
  }

  /** A 13-form EAN-13 accepts but the plugin does not, because the check
      value is never reduced modulo 10: a zero check digit. */
  lemma ZeroCheckDigitRejected13()
    ensures Ean13Valid("9780000000200") && !IsIsbn13("9780000000200")
  {
    var ean := "9780000000200";
    assert WeightedSum(ean, 4, Weight13) == 38;
    assert WeightedSum(ean, 8, Weight13) == 38;
    assert WeightedSum(ean, 12, Weight13) == 40;
    Isbn13AgainstEan13(ean);
  }

  /** Without a length check, a 13-character code whose last character equals
      the 10-form check of its first nine passes `isIsbn10`. */
  lemma LongCodePassesIsbn10()
    ensures |"030640615abc2"| == 13 && IsIsbn10("030640615abc2")
  {
    assert WeightedSum("030640615abc2", 9, Weight10) == 130;
    IsIsbnLastCharacter("030640615abc2");
  }
}
