/**
  The duration tokens of workout steps (upload_training.py:44-47): every
  "km", then every "m", then every "s" is deleted from the token, the rest is
  read with `int()`, and the number is taken as minutes when the original
  token contains an "m" (so "km" also counts as minutes) and as seconds
  otherwise.
 */
module Duration {
  import opened Outcomes
  import opened Text
  import opened Schema

  /**
    The token with every "km", then every "m", then every "s" deleted. No
    "m" or "s" is left, and nothing is added.
   */
  function StripUnits(token: string): (r: string)
    ensures 'm' !in r && 's' !in r
    ensures multiset(r) <= multiset(token)
  {
    var a := RemoveAll(token, "km");
    var b := RemoveAll(a, "m");
    RemoveAllOnlyDeletes(token, "km");
    RemoveAllOnlyDeletes(a, "m");
    RemoveAllOnlyDeletes(b, "s");
    RemoveAllChar(a, 'm');
    RemoveAllChar(b, 's');
    assert multiset(RemoveAll(b, "s"))['m'] == 0;
    RemoveAll(b, "s")
  }

  /** The number of seconds a step's duration token stands for, or the `int()` failure. */
  function ParseDuration(token: string): (r: Result<nat, FormatError>)
    ensures r.Ok? <==> IsDecimal(StripUnits(token))
    ensures r.Err? ==> r.error == InvalidInt(StripUnits(token))
    ensures r.Ok? && 'm' !in token ==> ParseNat(StripUnits(token)) == Some(r.value)
    ensures r.Ok? && 'm' in token ==> r.value % 60 == 0 && ParseNat(StripUnits(token)) == Some(r.value / 60)
  {
    var text := StripUnits(token);
    match ParseNat(text)
    case None => Err(InvalidInt(text))
    case Some(n) =>
      // minutes when the token contains "m" anywhere (a one-character
      // substring test is a membership test), seconds otherwise
      Ok(if 'm' in token then 60 * n else n)
  }

  /** The unit letters cannot appear in a decimal string. */
  lemma DecimalHasNoUnits(d: string)
    requires IsDecimal(d)
    ensures 'k' !in d && 'm' !in d && 's' !in d && '.' !in d
  {
  }

  /** A decimal string, optionally followed by a unit, loses exactly its unit. */
  lemma StripUnitsOfDecimal(d: string, unit: string)
    requires IsDecimal(d)
    requires unit == "" || unit == "s" || unit == "m" || unit == "km"
    ensures StripUnits(d + unit) == d
  {
    DecimalHasNoUnits(d);
    var a := RemoveAll(unit, "km");
    var b := RemoveAll(a, "m");
    UnitLettersRemoved(unit);
    RemoveAllSkipsPrefix(d, unit, "km");
    RemoveAllSkipsPrefix(d, a, "m");
    RemoveAllSkipsPrefix(d, b, "s");
    assert d + "" == d;
  }

  /** The unit suffixes on their own strip to nothing. */
  lemma UnitLettersRemoved(unit: string)
    requires unit == "" || unit == "s" || unit == "m" || unit == "km"
    ensures StripUnits(unit) == ""
  {
    if unit == "s" {
      SecondsMarkRemoved();
    } else if unit == "m" {
      MinutesMarkRemoved();
    } else if unit == "km" {
      KilometresMarkRemoved();
    }
  }

  lemma SecondsMarkRemoved()
    ensures StripUnits("s") == ""
  {
    assert RemoveAll("s", "km") == "s";
    assert RemoveAll("s", "m") == "s" by {
      NoFirstCharNoChange("s", "m");
    }
    assert RemoveAll("s", "s") == "" by {
      RemoveAllLeading("s", "");
      assert "s" + "" == "s";
    }
  }

  lemma MinutesMarkRemoved()
    ensures StripUnits("m") == ""
  {
    assert RemoveAll("m", "km") == "m";
    assert RemoveAll("m", "m") == "" by {
      RemoveAllLeading("m", "");
      assert "m" + "" == "m";
    }
  }

  lemma KilometresMarkRemoved()
    ensures StripUnits("km") == ""
  {
    assert RemoveAll("km", "km") == "" by {
      RemoveAllLeading("km", "");
      assert "km" + "" == "km";
    }
  }

  /** `"<n>m"` is n minutes. */
  lemma MinutesToken(d: string)
    requires IsDecimal(d)
    ensures ParseDuration(d + "m") == Ok(60 * DigitsValue(d))
  {
    StripUnitsOfDecimal(d, "m");
    assert (d + "m")[|d|] == 'm';
  }

  /** `"<n>km"` is also read as n minutes. */
  lemma KilometresCountAsMinutes(d: string)
    requires IsDecimal(d)
    ensures ParseDuration(d + "km") == Ok(60 * DigitsValue(d))
  {
    StripUnitsOfDecimal(d, "km");
    assert (d + "km")[|d| + 1] == 'm';
  }

  /** `"<n>s"` is n seconds. */
  lemma SecondsToken(d: string)
    requires IsDecimal(d)
    ensures ParseDuration(d + "s") == Ok(DigitsValue(d))
  {
    StripUnitsOfDecimal(d, "s");
    DecimalHasNoUnits(d);
    assert 'm' !in d + "s";
  }

  /** A bare number `"<n>"` is n seconds. */
  lemma BareNumberToken(d: string)
    requires IsDecimal(d)
    ensures ParseDuration(d) == Ok(DigitsValue(d))
  {
    StripUnitsOfDecimal(d, "");
    assert d + "" == d;
  }

  /** `str(n) + "m"` parses back to n minutes, for every n. */
  lemma MinutesRoundTrip(n: nat)
    ensures ParseDuration(NatToString(n) + "m") == Ok(60 * n)
  {
    MinutesToken(NatToString(n));
    DigitsValueToString(n);
  }

  /** `str(n) + "s"` parses back to n seconds, for every n. */
  lemma SecondsRoundTrip(n: nat)
    ensures ParseDuration(NatToString(n) + "s") == Ok(n)
  {
    SecondsToken(NatToString(n));
    DigitsValueToString(n);
  }

  /**
    A token holding any character other than a digit or a unit letter is
    rejected: stripping units never deletes that character.
   */
  lemma ForeignCharacterRejected(token: string, c: char)
    requires c in token && !IsDigit(c) && c != 'k' && c != 'm' && c != 's'
    ensures ParseDuration(token) == Err(InvalidInt(StripUnits(token)))
  {
    var a := RemoveAll(token, "km");
    var b := RemoveAll(a, "m");
    var t := RemoveAll(b, "s");
    assert multiset(token)[c] > 0;
    RemoveAllKeepsOthers(token, "km", c);
    RemoveAllKeepsOthers(a, "m", c);
    RemoveAllKeepsOthers(b, "s", c);
    assert c in multiset(t);
    assert c in t;
  }

  /** An empty token, or one made only of unit letters, leaves nothing for `int()`. */
  lemma UnitOnlyTokenRejected()
    ensures ParseDuration("") == Err(InvalidInt(""))
    ensures ParseDuration("m") == Err(InvalidInt(""))
    ensures ParseDuration("km") == Err(InvalidInt(""))
  {
    UnitLettersRemoved("");
    UnitLettersRemoved("m");
    UnitLettersRemoved("km");
  }

  /**
    Units are not added up: a token such as "1m30s" keeps every digit and
    scales the whole number once, so it is read as 130 minutes.
   */
  lemma CompoundTokenIsOneNumber(a: string, b: string)
    requires IsDecimal(a) && IsDecimal(b)
    ensures ParseDuration(a + "m" + b + "s") == Ok(60 * DigitsValue(a + b))
  {
    var token := a + "m" + b + "s";
    DecimalHasNoUnits(a);
    DecimalHasNoUnits(b);
    CompoundTokenStrips(a, b);
    assert token[|a|] == 'm';
  }

  /** Removing the unit letters from `a + "m" + b + "s"` leaves `a + b`. */
  lemma CompoundTokenStrips(a: string, b: string)
    requires 'k' !in a && 'm' !in a && 's' !in a
    requires 'k' !in b && 'm' !in b && 's' !in b
    ensures StripUnits(a + "m" + b + "s") == a + b
  {
    var bs := b + "s";
    var token := a + "m" + bs;
    assert a + "m" + b + "s" == token;
    assert RemoveAll(token, "km") == token by {
      assert 'k' !in token;
      NoFirstCharNoChange(token, "km");
    }
    assert RemoveAll(token, "m") == a + bs by {
      RemoveAllAfterPrefix(a, "m", bs);
      assert 'm' !in bs;
      NoFirstCharNoChange(bs, "m");
    }
    assert RemoveAll(a + bs, "s") == a + b by {
      var ab := a + b;
      assert a + bs == ab + "s" + "";
      assert 's' !in ab;
      RemoveAllAfterPrefix(ab, "s", "");
      assert ab + "" == ab;
    }
  }
}
