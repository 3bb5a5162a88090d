/** Reading the `mm:ss` display back: the two fields of the text
    `formatTime` produces, a reference parser for it, and the proof that the
    formatter loses nothing. */
module TimeReading {
  import opened TimeFormat

  datatype Option<T> = None | Some(value: T)

  /** Cutting `mins + ":" + secs` at the colon three characters from the
      end gives back both parts when `secs` has two characters. */
  lemma SplitJoined(mins: string, secs: string)
    requires |secs| == 2
    ensures var r := mins + ":" + secs;
      r[..|r| - 3] == mins && r[|r| - 3] == ':' && r[|r| - 2..] == secs
  {
    var r := mins + ":" + secs;
    assert r[..|r| - 3] == mins;
    assert r[|r| - 2..] == secs;
  }

  /** The two fields of the display: before the colon the whole minutes,
      after it the remaining seconds, each as `Padded` writes it (digits
      denoting that number, exactly two for the seconds). */
  lemma FormatTimeFields(seconds: nat)
    ensures var r := FormatTime(seconds);
      r[..|r| - 3] == Padded(seconds / 60) && r[|r| - 2..] == Padded(seconds % 60)
  {
    var mins, secs := Padded(seconds / 60), Padded(seconds % 60);
    assert |secs| == 2;
    assert FormatTime(seconds) == mins + ":" + secs;
    SplitJoined(mins, secs);
  }

  /** The reference reader of the display: a run of minute digits, a colon
      and exactly two second digits denoting less than 60. */
  function ParseTime(t: string): (r: Option<nat>)
    ensures r.Some? ==> |t| >= 4 && t[|t| - 3] == ':'
  {
    if |t| < 4 || t[|t| - 3] != ':' then None
    else
      var mins, secs := t[..|t| - 3], t[|t| - 2..];
      if !IsDigits(mins) || !IsDigits(secs) || Value(secs) >= 60 then None
      else Some(Value(mins) * 60 + Value(secs))
  }

  /** Reading the display back gives the number of seconds it was made from. */
  lemma FormatParseRoundTrip(seconds: nat)
    ensures ParseTime(FormatTime(seconds)) == Some(seconds)
  {
    var m, sec := seconds / 60, seconds % 60;
    assert seconds == m * 60 + sec;
    var mins, secs := Padded(m), Padded(sec);
    assert |secs| == 2;
    assert FormatTime(seconds) == mins + ":" + secs;
    assert Value(mins) * 60 + Value(secs) == seconds;
    ParseJoined(mins, secs);
    assert ParseTime(mins + ":" + secs) == Some(seconds);
  }

  /** The reader takes a minutes field, a colon and a two-digit seconds
      field below 60 to the number of seconds they denote together. */
  lemma ParseJoined(mins: string, secs: string)
    requires IsDigits(mins) && |mins| >= 1
    requires IsDigits(secs) && |secs| == 2 && Value(secs) < 60
    ensures ParseTime(mins + ":" + secs) == Some(Value(mins) * 60 + Value(secs))
  {
    var t := mins + ":" + secs;
    SplitJoined(mins, secs);
    assert t[..|t| - 3] == mins && t[|t| - 2..] == secs;
    assert ParseTime(t) == Some(Value(mins) * 60 + Value(secs));
  }

  /** No two different second counts are displayed alike. */
  lemma FormatTimeInjective(a: nat, b: nat)
    ensures a != b ==> FormatTime(a) != FormatTime(b)
  {
    FormatParseRoundTrip(a);
    FormatParseRoundTrip(b);
  }

  /** The display reads 00:00 exactly when no seconds are left. */
  lemma ZeroDisplay(seconds: nat)
    ensures FormatTime(seconds) == "00:00" <==> seconds == 0
  {
    var zero := "00:00";
    assert ParseTime(zero) == Some(0) by {
      assert Value("00") == 0 by {
        assert "00"[..1] == "0";
        assert "0"[..0] == "";
      }
      ParseJoined("00", "00");
      assert "00" + ":" + "00" == zero;
    }
    FormatParseRoundTrip(seconds);
    if seconds == 0 {
      assert Padded(0) == "00" by {
        assert Digits(0) == "0";
      }
      assert FormatTime(0) == Padded(0) + ":" + Padded(0);
    }
  }
}
