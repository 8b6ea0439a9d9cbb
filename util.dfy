/**
 * The two text formatters of `src/common/util.rs`: `format_duration`
 * (seconds as `HHh MMm SSs`) and `format_thousands` (comma grouping of the
 * `Display` text of a number).
 */
module Util {
  import opened Common

  // ---------------------------------------------------------------------------
  // format_duration

  /** Hours, minutes and seconds of a whole number of seconds. */
  function SplitDuration(totalSecs: nat): (hms: (nat, nat, nat))
    ensures hms.1 < 60 && hms.2 < 60
    ensures hms.0 * 3600 + hms.1 * 60 + hms.2 == totalSecs
  {
    var h, rest := totalSecs / 3600, totalSecs % 3600;
    assert rest / 60 * 60 + rest % 60 == rest;
    assert totalSecs % 60 == rest % 60 by {
      DivModShift(totalSecs, 60, 60);
    }
    (h, rest / 60, totalSecs % 60)
  }

  /** `format_duration`: `{:02}h {:02}m {:02}s` of the split of `duration.as_secs()`. */
  function FormatDuration(totalSecs: nat): (text: string)
    ensures |text| >= 11
    ensures text[|text| - 9..|text| - 7] == "h " && text[|text| - 5..|text| - 3] == "m "
    ensures text[|text| - 1] == 's'
  {
    var (h, m, s) := SplitDuration(totalSecs);
    DurationShape(Pad2(h), Pad2(m), Pad2(s));
    Pad2(h) + "h " + Pad2(m) + "m " + Pad2(s) + "s"
  }

  /** Where the unit letters sit in `<H>h <MM>m <SS>s`. */
  lemma DurationShape(hh: string, mm: string, ss: string)
    requires |mm| == 2 && |ss| == 2
    ensures var t := hh + "h " + mm + "m " + ss + "s";
            |t| == |hh| + 9 && t[|t| - 9..|t| - 7] == "h " && t[|t| - 5..|t| - 3] == "m " && t[|t| - 1] == 's'
  {
  }

  /**
   * Reads a text laid out as `<H>h <MM>m <SS>s` (at least two hour digits,
   * exactly two minute and second digits, minutes and seconds below 60) back
   * into a number of seconds.
   */
  function ParseDuration(t: string): Option<nat> {
    var n := |t|;
    if n < 11 then None
    else
      var hh, mm, ss := t[..n - 9], t[n - 7..n - 5], t[n - 3..n - 1];
      if t[n - 9..n - 7] != "h " || t[n - 5..n - 3] != "m " || t[n - 1] != 's' then None
      else if !IsDigits(hh) || !IsDigits(mm) || !IsDigits(ss) then None
      else if DigitsValue(mm) >= 60 || DigitsValue(ss) >= 60 then None
      else Some(DigitsValue(hh) * 3600 + DigitsValue(mm) * 60 + DigitsValue(ss))
  }

  /**
   * The formatted duration has minutes and seconds as two digits each, at least
   * two hour digits, and reading it back gives the total number of seconds.
   */
  lemma FormatDurationRoundTrip(totalSecs: nat)
    ensures ParseDuration(FormatDuration(totalSecs)) == Some(totalSecs)
  {
    var (h, m, s) := SplitDuration(totalSecs);
    var t := FormatDuration(totalSecs);
    var n := |t|;
    assert t == Pad2(h) + "h " + Pad2(m) + "m " + Pad2(s) + "s";
    assert |Pad2(m)| == 2 && |Pad2(s)| == 2;
    assert n == |Pad2(h)| + 9;
    assert t[..n - 9] == Pad2(h);
    assert t[n - 7..n - 5] == Pad2(m);
    assert t[n - 3..n - 1] == Pad2(s);
    assert t[n - 9..n - 7] == "h ";
    assert t[n - 5..n - 3] == "m ";
  }

  // ---------------------------------------------------------------------------
  // format_thousands

  /**
   * Comma grouping of a string by character count, from the right: groups of
   * three, the leftmost group keeping what is left over.
   */
  function Group(s: string): string
    decreases |s|
  {
    if |s| <= 3 then s else Group(s[..|s| - 3]) + "," + s[|s| - 3..]
  }

  /** Grouping never shortens the text. */
  lemma {:induction false} GroupLength(s: string)
    ensures |s| <= |Group(s)|
    decreases |s|
  {
    if |s| > 3 {
      GroupLength(s[..|s| - 3]);
    }
  }

  /** What `format_thousands` returns for the `Display` text `s` of its argument. */
  function Thousands(s: string): (r: string)
    ensures |s| <= |r|
    ensures |s| > 0 && s[0] == '-' ==> r[0] == '-'
  {
    if |s| > 0 && s[0] == '-' then
      GroupLength(s[1..]);
      "-" + Group(s[1..])
    else
      GroupLength(s);
      Group(s)
  }

  /**
   * `format_thousands`: strips a leading `-`, then repeatedly splits the last
   * three characters off, prefixing `,` and them to the output, and finally
   * puts the remainder and the sign back in front.
   */
  method FormatThousands(n: string) returns (out: string)
    ensures out == Thousands(n)
    ensures ',' !in n ==> RemoveCommas(out) == RemoveCommas(n)
  {
    var s := n;
    var negative := |s| > 0 && s[0] == '-';
    if negative {
      s := s[1..];
    }
    ghost var body := s;
    out := "";
    while |s| > 3
      invariant Group(body) == Group(s) + out
      decreases |s|
    {
      var tail := s[|s| - 3..];
      GroupSplitsLast(s, out);
      s := s[..|s| - 3];
      out := "," + tail + out;
    }
    out := s + out;
    assert out == Group(body);
    if negative {
      out := "-" + out;
    }
    assert out == Thousands(n);
    if ',' !in n {
      ThousandsRemoveCommas(n);
    }
  }

  /** One step of the loop: the last three characters become `,` and them in front of `out`. */
  lemma GroupSplitsLast(s: string, out: string)
    requires |s| > 3
    ensures Group(s) + out == Group(s[..|s| - 3]) + ("," + s[|s| - 3..] + out)
  {
    var a, b := Group(s[..|s| - 3]), s[|s| - 3..];
    assert Group(s) == a + "," + b;
    ConcatAssociates(a, ",", b, out);
  }

  lemma ConcatAssociates<T>(a: seq<T>, c: seq<T>, b: seq<T>, d: seq<T>)
    ensures a + c + b + d == a + (c + b + d)
  {
  }

  /** Deleting the commas from a grouped comma-free string gives it back. */
  lemma {:induction false} GroupRemoveCommas(s: string)
    requires ',' !in s
    ensures RemoveCommas(Group(s)) == s
    decreases |s|
  {
    if |s| <= 3 {
      RemoveCommasNoop(s);
    } else {
      var head, tail := s[..|s| - 3], s[|s| - 3..];
      assert s == head + tail;
      assert ',' !in head && ',' !in tail;
      assert RemoveCommas(",") == "" by {
        assert ","[1..] == "";
      }
      calc {
        RemoveCommas(Group(s));
        RemoveCommas(Group(head) + "," + tail);
        { assert Group(head) + "," + tail == Group(head) + ("," + tail); }
        RemoveCommas(Group(head) + ("," + tail));
        { RemoveCommasAppend(Group(head), "," + tail); }
        RemoveCommas(Group(head)) + RemoveCommas("," + tail);
        { RemoveCommasAppend(",", tail); }
        RemoveCommas(Group(head)) + RemoveCommas(tail);
        { GroupRemoveCommas(head); RemoveCommasNoop(tail); }
        head + tail;
      }
    }
  }

  /** `format_thousands` of a comma-free text loses nothing but the commas it adds. */
  lemma ThousandsRemoveCommas(s: string)
    requires ',' !in s
    ensures RemoveCommas(Thousands(s)) == RemoveCommas(s)
  {
    RemoveCommasNoop(s);
    if |s| > 0 && s[0] == '-' {
      assert ',' !in s[1..];
      GroupRemoveCommas(s[1..]);
      RemoveCommasAppend("-", Group(s[1..]));
    } else {
      GroupRemoveCommas(s);
    }
  }

  /**
   * The shape of a grouped number: a first group of one to three characters,
   * then groups of exactly three, each preceded by one comma.
   */
  predicate WellGrouped(r: string) {
    if ',' !in r then 1 <= |r| <= 3
    else |r| > 4 && r[|r| - 4] == ',' && ',' !in r[|r| - 3..] && WellGrouped(r[..|r| - 4])
  }

  /** Grouping a non-empty digit string gives that shape. */
  lemma {:induction false} GroupWellGrouped(s: string)
    requires |s| >= 1 && IsDigits(s)
    ensures WellGrouped(Group(s))
    decreases |s|
  {
    var r := Group(s);
    if |s| > 3 {
      var head, tail := s[..|s| - 3], s[|s| - 3..];
      GroupWellGrouped(head);
      assert r == Group(head) + "," + tail;
      assert r[..|r| - 4] == Group(head);
      assert r[|r| - 3..] == tail;
      assert ',' in r by { assert r[|r| - 4] == ','; }
    } else {
      assert forall i | 0 <= i < |s| :: s[i] != ',';
    }
  }

  /** A well-grouped string neither starts nor ends with a comma. */
  lemma {:induction false} WellGroupedEnds(r: string)
    requires WellGrouped(r)
    ensures |r| >= 1 && r[0] != ',' && r[|r| - 1] != ','
    decreases |r|
  {
    if ',' in r {
      WellGroupedEnds(r[..|r| - 4]);
      assert r[|r| - 1] == r[|r| - 3..][2];
    }
  }

  /** A negative number keeps its sign in front of the grouped digits. */
  lemma ThousandsNegative(digits: string)
    ensures Thousands("-" + digits) == "-" + Group(digits)
  {
    assert ("-" + digits)[1..] == digits;
  }

  /**
   * As written, grouping counts characters, so a decimal text gets a comma
   * inside or in front of its fraction: `1234.56` becomes `1,234,.56`.
   */
  lemma ThousandsSplitsFraction()
    ensures Thousands("1234.56") == "1,234,.56"
  {
    assert Group("1234") == "1,234" by {
      assert "1234"[..1] == "1";
      assert "1234"[1..] == "234";
    }
    assert "1234.56"[..4] == "1234";
    assert "1234.56"[4..] == ".56";
  }

  // ---------------------------------------------------------------------------
  // Corrected grouping for decimal texts

  /** Index of the first `.` in `s`, or `|s|` when there is none. */
  function DotIndex(s: string): (k: nat)
    ensures k <= |s|
    ensures '.' !in s[..k]
    ensures k < |s| ==> s[k] == '.'
  {
    if s == [] then 0
    else if s[0] == '.' then 0
    else
      var k := 1 + DotIndex(s[1..]);
      assert s[..k] == [s[0]] + s[1..][..k - 1];
      k
  }

  /**
   * Grouping as evidently intended for decimal texts: only the integer part
   * (before the first `.`) is grouped, the fraction is kept verbatim.
   */
  function ThousandsDecimal(s: string): (r: string)
    ensures var body := if |s| > 0 && s[0] == '-' then s[1..] else s;
            var frac := body[DotIndex(body)..];
            |frac| <= |r| && r[|r| - |frac|..] == frac
  {
    var negative := |s| > 0 && s[0] == '-';
    var body := if negative then s[1..] else s;
    var k := DotIndex(body);
    (if negative then "-" else "") + Group(body[..k]) + body[k..]
  }

  /** The corrected grouping of a comma-free text only adds commas. */
  lemma ThousandsDecimalRemoveCommas(s: string)
    requires ',' !in s
    ensures RemoveCommas(ThousandsDecimal(s)) == s
  {
    if |s| > 0 && s[0] == '-' {
      var body := s[1..];
      assert ',' !in body by {
        forall c | c in body ensures c in s { }
      }
      BodyRemoveCommas("-", body, DotIndex(body));
      assert "-" + body == s;
    } else {
      BodyRemoveCommas("", s, DotIndex(s));
      assert "" + s == s;
    }
  }

  /** Grouping the part of a comma-free `body` before a cut `k` only adds commas. */
  lemma BodyRemoveCommas(sign: string, body: string, k: nat)
    requires ',' !in sign && ',' !in body && k <= |body|
    ensures RemoveCommas(sign + Group(body[..k]) + body[k..]) == sign + body
  {
    NoCommaInSlices(body, k);
    GroupRemoveCommas(body[..k]);
    RemoveCommasNoop(sign);
    RemoveCommasNoop(body[k..]);
    PiecesRemoveCommas(sign, Group(body[..k]), body, k);
  }

  /** Removing commas from `sign + g + body[k..]`, when only `g` holds commas and they hide `body[..k]`. */
  lemma PiecesRemoveCommas(sign: string, g: string, body: string, k: nat)
    requires k <= |body|
    requires RemoveCommas(sign) == sign && RemoveCommas(g) == body[..k] && RemoveCommas(body[k..]) == body[k..]
    ensures RemoveCommas(sign + g + body[k..]) == sign + body
  {
    RemoveCommasAppend(sign + g, body[k..]);
    RemoveCommasAppend(sign, g);
    SplitJoin(sign, body, k);
  }

  /** Cutting `b` and gluing it back after `a` gives `a + b`. */
  lemma SplitJoin<T>(a: seq<T>, b: seq<T>, k: nat)
    requires k <= |b|
    ensures a + b[..k] + b[k..] == a + b
  {
    assert b[..k] + b[k..] == b;
  }

  /** Both sides of a cut of a comma-free text are comma-free. */
  lemma NoCommaInSlices(s: string, k: nat)
    requires ',' !in s && k <= |s|
    ensures ',' !in s[..k] && ',' !in s[k..]
  {
  }

  /** On integers (no `.`) the corrected grouping agrees with the original one. */
  lemma ThousandsDecimalAgreesOnIntegers(s: string)
    requires '.' !in s
    ensures ThousandsDecimal(s) == Thousands(s)
  {
    var body := if |s| > 0 && s[0] == '-' then s[1..] else s;
    if DotIndex(body) < |body| {
      assert body[DotIndex(body)] in s;
    }
    assert body[..|body|] == body;
  }
}
