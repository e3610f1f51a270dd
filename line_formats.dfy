/** The three line formats of the input files, written as recognisers: a
    street line `<start>--><end>:<length>m,<lanes>x,<limit>max`, a car line
    `<id>,<street>,<speed>,<acceleration>` and a crossing line
    `<id>:<c>t`. Each recogniser is shown to accept exactly the texts that the
    corresponding regular expression describes. */
module LineFormats {
  import opened Errors
  import opened Decimal

  /** 10 to the power `k`. */
  function Pow10(k: nat): (r: nat)
    ensures r >= 1
  {
    if k == 0 then 1 else 10 * Pow10(k - 1)
  }

  /** `[0-9]+`. */
  predicate Digits(t: string) {
    |t| >= 1 && AllDigits(t)
  }

  /** Digits without a leading zero (a single "0" is allowed). */
  predicate Canonical(t: string) {
    Digits(t) && (|t| == 1 || t[0] != '0')
  }

  /** `10|[1-9][0-9]{1,3}|10000`: the street length. */
  predicate LengthField(t: string) {
    t == "10" || t == "10000" || (2 <= |t| <= 4 && '1' <= t[0] <= '9' && AllDigits(t))
  }

  /** `[1-2]`: the number of lanes. */
  predicate LaneField(t: string) {
    |t| == 1 && '1' <= t[0] <= '2'
  }

  /** `[5-9]|[1-3][0-9]|40`: the speed limit. */
  predicate SpeedLimitField(t: string) {
    (|t| == 1 && '5' <= t[0] <= '9') || (|t| == 2 && '1' <= t[0] <= '3' && IsDigit(t[1])) || t == "40"
  }

  /** `20|2[1-9]|3[0-9]|40`: the preferred speed of a car. */
  predicate PreferredSpeedField(t: string) {
    t == "20" || (|t| == 2 && t[0] == '2' && '1' <= t[1] <= '9') || (|t| == 2 && t[0] == '3' && IsDigit(t[1])) || t == "40"
  }

  /** `[1-9]|10`: the acceleration of a car. */
  predicate AccelerationField(t: string) {
    (|t| == 1 && '1' <= t[0] <= '9') || t == "10"
  }

  /** `[0|3-9|10]`: a character class, so one of '0', '|', '3'..'9', '1'. */
  predicate GreenTimeChar(c: char) {
    c == '0' || c == '|' || ('3' <= c <= '9') || c == '1'
  }

  /** The longest digit prefix of `s` and what follows it. */
  function Token(s: string): (r: (string, string))
    ensures r.0 + r.1 == s && AllDigits(r.0) && (r.1 == [] || !IsDigit(r.1[0]))
  {
    var k := DigitPrefixLength(s);
    assert s[..k] + s[k..] == s;
    (s[..k], s[k..])
  }

  /** What follows the literal `word` at the front of `s`. */
  function Literal(word: string, s: string): (r: Option<string>)
    ensures r.Some? <==> |word| <= |s| && s[..|word|] == word
    ensures r.Some? ==> s == word + r.value
  {
    if |word| <= |s| && s[..|word|] == word then
      assert s == s[..|word|] + s[|word|..];
      Some(s[|word|..])
    else None
  }

  /** A digit run, then the literal `word`; gives the run and the rest. */
  function Field(s: string, word: string): (r: Option<(string, string)>)
    ensures r.Some? ==> Digits(r.value.0) && s == r.value.0 + word + r.value.1
  {
    var (t, rest) := Token(s);
    if t == [] then None
    else match Literal(word, rest)
      case None => None
      case Some(after) => Some((t, after))
  }

  /** Digit runs, each followed by its literal word, up to the end of `s`. */
  function Fields(s: string, words: seq<string>): (r: Option<seq<string>>)
    // naming |s| as well keeps the verifier from unfolding a literal word
    // list on a line it does not know
    decreases |words|, |s|
  {
    if words == [] then (if s == [] then Some([]) else None)
    else match Field(s, words[0])
      case None => None
      case Some((t, rest)) =>
        match Fields(rest, words[1..])
        case None => None
        case Some(ts) => Some([t] + ts)
  }

  /** The text with the digit runs `ts`, each followed by its word. */
  function Join(ts: seq<string>, words: seq<string>): string
    requires |ts| == |words|
    decreases |ts|, |words|
  {
    if words == [] then [] else ts[0] + words[0] + Join(ts[1..], words[1..])
  }

  /** The words of a street line `<start>--><end>:<length>m,<lanes>x,<limit>max`. */
  const STREET_WORDS: seq<string> := ["-->", ":", "m,", "x,", "max"]
  /** The words of a car line `<id>,<street>,<speed>,<acceleration>`. */
  const CAR_WORDS: seq<string> := [",", ",", ",", ""]

  /** The street-line recogniser. */
  predicate StreetLine(s: string) {
    match Fields(s, STREET_WORDS)
    case None => false
    case Some(f) => |f| == 5 && LengthField(f[2]) && LaneField(f[3]) && SpeedLimitField(f[4])
  }

  /** The car-line recogniser. */
  predicate CarLine(s: string) {
    match Fields(s, CAR_WORDS)
    case None => false
    case Some(f) => |f| == 4 && PreferredSpeedField(f[2]) && AccelerationField(f[3])
  }

  function CrossingText(id: string, c: char): string {
    id + ":" + [c, 't']
  }

  /** Cuts a crossing line into its id and green-time character. */
  function CrossingFields(s: string): Option<(string, char)> {
    match Field(s, ":")
    case None => None
    case Some((a, r)) => if |r| == 2 && r[1] == 't' then Some((a, r[0])) else None
  }

  /** The crossing-line recogniser. */
  predicate CrossingLine(s: string) {
    match CrossingFields(s)
    case None => false
    case Some((a, c)) => GreenTimeChar(c)
  }

  // ---- the recognisers against the texts of the formats ----

  /** A digit run followed by `word` and `rest` is read back by `Field`
      when no digit follows the run. */
  lemma FieldOfText(t: string, word: string, rest: string)
    requires Digits(t) && (word + rest == [] || !IsDigit((word + rest)[0]))
    ensures Field(t + word + rest, word) == Some((t, rest))
  {
    var s := t + word + rest;
    DigitPrefixOfDigits(t, word + rest);
    assert s == t + (word + rest);
    assert s[..|t|] == t && s[|t|..] == word + rest;
    assert (word + rest)[..|word|] == word && (word + rest)[|word|..] == rest;
  }

  /** What `Fields` accepts is the text of the runs it returns. */
  lemma {:induction false} FieldsSound(s: string, words: seq<string>)
    requires Fields(s, words).Some?
    ensures var ts := Fields(s, words).value;
      |ts| == |words| && (forall k :: 0 <= k < |ts| ==> Digits(ts[k])) && s == Join(ts, words)
    decreases |words|
  {
    if words != [] {
      var (t, rest) := Field(s, words[0]).value;
      FieldsSound(rest, words[1..]);
      var ts := Fields(s, words).value;
      assert ts[1..] == Fields(rest, words[1..]).value;
    }
  }

  /** Words that do not start with a digit; only the last may be empty. */
  predicate Separators(words: seq<string>) {
    forall k :: 0 <= k < |words| ==>
      (words[k] == [] ==> k == |words| - 1) && (words[k] != [] ==> !IsDigit(words[k][0]))
  }

  /** `Fields` reads back every text made of digit runs and separators. */
  lemma {:induction false} FieldsComplete(ts: seq<string>, words: seq<string>)
    requires |ts| == |words| && Separators(words)
    requires forall k :: 0 <= k < |ts| ==> Digits(ts[k])
    ensures Fields(Join(ts, words), words) == Some(ts)
    decreases |words|
  {
    if words != [] {
      var rest := Join(ts[1..], words[1..]);
      assert Join(ts, words) == ts[0] + words[0] + rest;
      assert Separators(words[1..]);
      FieldsComplete(ts[1..], words[1..]);
      assert words[0] + rest == [] || !IsDigit((words[0] + rest)[0]) by {
        if words[0] == [] {
          assert rest == [];
        } else {
          assert (words[0] + rest)[0] == words[0][0];
        }
      }
      FieldOfText(ts[0], words[0], rest);
      assert [ts[0]] + ts[1..] == ts;
    }
  }

  /** A street line is exactly the text of five digit runs with the street
      words between them, where the last three runs are of their formats. */
  lemma StreetLineIsFormat(s: string)
    ensures StreetLine(s) <==>
      exists f :: |f| == 5 && (forall k :: 0 <= k < 5 ==> Digits(f[k]))
        && LengthField(f[2]) && LaneField(f[3]) && SpeedLimitField(f[4]) && s == Join(f, STREET_WORDS)
  {
    if StreetLine(s) {
      FieldsSound(s, STREET_WORDS);
    }
    forall f | |f| == 5 && (forall k :: 0 <= k < 5 ==> Digits(f[k])) && s == Join(f, STREET_WORDS)
      ensures Fields(s, STREET_WORDS) == Some(f)
    {
      StreetFieldsComplete(f);
    }
  }

  /** `Fields` reads the five runs back from a text with the street words. */
  lemma StreetFieldsComplete(f: seq<string>)
    requires |f| == 5 && forall k :: 0 <= k < 5 ==> Digits(f[k])
    ensures Fields(Join(f, STREET_WORDS), STREET_WORDS) == Some(f)
  {
    assert Separators(STREET_WORDS) by {
      assert STREET_WORDS[0][0] == '-' && STREET_WORDS[1][0] == ':' && STREET_WORDS[2][0] == 'm';
      assert STREET_WORDS[3][0] == 'x' && STREET_WORDS[4][0] == 'm';
    }
    FieldsComplete(f, STREET_WORDS);
  }

  /** A car line is exactly the text of four digit runs separated by commas,
      where the last two runs are of their formats. */
  lemma CarLineIsFormat(s: string)
    ensures CarLine(s) <==>
      exists f :: |f| == 4 && (forall k :: 0 <= k < 4 ==> Digits(f[k]))
        && PreferredSpeedField(f[2]) && AccelerationField(f[3]) && s == Join(f, CAR_WORDS)
  {
    if CarLine(s) {
      FieldsSound(s, CAR_WORDS);
    }
    forall f | |f| == 4 && (forall k :: 0 <= k < 4 ==> Digits(f[k])) && s == Join(f, CAR_WORDS)
      ensures Fields(s, CAR_WORDS) == Some(f)
    {
      FieldsComplete(f, CAR_WORDS);
    }
  }

  lemma CrossingLineSound(s: string)
    requires CrossingLine(s)
    ensures var (a, c) := CrossingFields(s).value;
      Digits(a) && GreenTimeChar(c) && s == CrossingText(a, c)
  {
    var (a, r) := Field(s, ":").value;
    assert r == [r[0], 't'];
  }

  lemma CrossingLineComplete(a: string, c: char)
    requires Digits(a) && GreenTimeChar(c)
    ensures CrossingFields(CrossingText(a, c)) == Some((a, c))
    ensures CrossingLine(CrossingText(a, c))
  {
    FieldOfText(a, ":", [c, 't']);
  }

  // ---- the field formats against the numbers they stand for ----

  /** A string of k digits stands for a number below 10^k. */
  lemma {:induction false} DigitsBelow(t: string)
    requires AllDigits(t)
    ensures DigitsValue(t) < Pow10(|t|)
    decreases |t|
  {
    if t != [] {
      DigitsBelow(t[..|t| - 1]);
    }
  }

  /** With a leading digit other than '0', k digits stand for at least 10^(k-1). */
  lemma {:induction false} DigitsAtLeast(t: string)
    requires Digits(t) && t[0] != '0'
    ensures DigitsValue(t) >= Pow10(|t| - 1)
    decreases |t|
  {
    if |t| > 1 {
      var u := t[..|t| - 1];
      assert u[0] == t[0];
      DigitsAtLeast(u);
    }
  }

  /** Canonical digits are the shortest decimal text of their value. */
  lemma {:induction false} CanonicalIsShortest(t: string)
    requires Canonical(t)
    ensures NatToString(DigitsValue(t)) == t
    decreases |t|
  {
    if |t| > 1 {
      var u := t[..|t| - 1];
      assert u[0] == t[0];
      CanonicalIsShortest(u);
      DigitsAtLeast(u);
      assert t == u + [t[|t| - 1]];
    } else {
      assert t == [t[0]];
    }
  }

  /** Two canonical texts with the same value are the same text. */
  lemma CanonicalUnique(t: string, u: string)
    requires Canonical(t) && Canonical(u) && DigitsValue(t) == DigitsValue(u)
    ensures t == u
  {
    CanonicalIsShortest(t);
    CanonicalIsShortest(u);
  }

  /** The value range of a canonical text bounds its length. */
  lemma CanonicalLength(t: string, lo: nat, hi: nat)
    requires Canonical(t)
    ensures DigitsValue(t) < Pow10(|t|)
    ensures |t| > 1 ==> DigitsValue(t) >= Pow10(|t| - 1)
  {
    DigitsBelow(t);
    if |t| > 1 {
      DigitsAtLeast(t);
    }
  }

  lemma PowersUpTo5()
    ensures Pow10(1) == 10 && Pow10(2) == 100 && Pow10(3) == 1000 && Pow10(4) == 10000 && Pow10(5) == 100000
  {
  }

  /** Lengths larger than 5 digits stand for at least 100000. */
  lemma PowMonotone(k: nat)
    requires k >= 5
    ensures Pow10(k) >= 100000
  {
    if k > 5 {
      PowMonotone(k - 1);
    }
  }

  lemma ValueOf10000()
    ensures Canonical("10000") && DigitsValue("10000") == 10000
  {
    assert "10000"[..4] == "1000";
    assert "1000"[..3] == "100";
    assert "100"[..2] == "10";
    assert "10"[..1] == "1";
  }

  /** The street length field is the shortest text of a number in 10..10000. */
  lemma LengthFieldValues(t: string)
    ensures LengthField(t) <==> Canonical(t) && 10 <= DigitsValue(t) <= 10000
  {
    PowersUpTo5();
    ValueOf10000();
    assert "10"[..1] == "1";
    if Canonical(t) {
      CanonicalLength(t, 10, 10000);
      if |t| >= 5 {
        PowMonotone(|t| - 1 + 1);
      }
      if |t| == 5 && DigitsValue(t) == 10000 {
        CanonicalUnique(t, "10000");
      }
      if |t| >= 6 {
        PowMonotone(|t| - 1);
      }
    }
  }

  /** The speed limit field is the shortest text of a number in 5..40. */
  lemma SpeedLimitFieldValues(t: string)
    ensures SpeedLimitField(t) <==> Canonical(t) && 5 <= DigitsValue(t) <= 40
  {
    PowersUpTo5();
    assert "40"[..1] == "4";
    if Canonical(t) {
      CanonicalLength(t, 5, 40);
      if |t| >= 3 {
        DigitsAtLeast(t);
        assert Pow10(|t| - 1) >= 100 by {
          if |t| > 3 {
            PowAtLeast(|t| - 1, 2);
          }
        }
      }
      if |t| == 2 && DigitsValue(t) == 40 {
        CanonicalUnique(t, "40");
      }
    }
  }

  /** The preferred speed field is the shortest text of a number in 20..40. */
  lemma PreferredSpeedFieldValues(t: string)
    ensures PreferredSpeedField(t) <==> Canonical(t) && 20 <= DigitsValue(t) <= 40
  {
    PowersUpTo5();
    assert "40"[..1] == "4";
    assert "20"[..1] == "2";
    if Canonical(t) {
      CanonicalLength(t, 20, 40);
      if |t| >= 3 {
        DigitsAtLeast(t);
        assert Pow10(|t| - 1) >= 100 by {
          if |t| > 3 {
            PowAtLeast(|t| - 1, 2);
          }
        }
      }
      if |t| == 2 && DigitsValue(t) == 40 {
        CanonicalUnique(t, "40");
      }
      if |t| == 2 && DigitsValue(t) == 20 {
        CanonicalUnique(t, "20");
      }
    }
  }

  /** The acceleration field is the shortest text of a number in 1..10. */
  lemma AccelerationFieldValues(t: string)
    ensures AccelerationField(t) <==> Canonical(t) && 1 <= DigitsValue(t) <= 10
  {
    PowersUpTo5();
    assert "10"[..1] == "1";
    if Canonical(t) {
      CanonicalLength(t, 1, 10);
      if |t| >= 3 {
        DigitsAtLeast(t);
        assert Pow10(|t| - 1) >= 100 by {
          if |t| > 3 {
            PowAtLeast(|t| - 1, 2);
          }
        }
      }
      if |t| == 2 && DigitsValue(t) == 10 {
        CanonicalUnique(t, "10");
      }
    }
  }

  lemma PowAtLeast(k: nat, m: nat)
    requires k >= m
    ensures Pow10(k) >= Pow10(m)
    decreases k
  {
    if k > m {
      PowAtLeast(k - 1, m);
    }
  }
}
