/**
  Dates read out of product file names: the text between two markers
  (`name[name.find(a) + len(a):name.find(b)]`) or a fixed-width prefix, cut
  into fixed-offset fields and joined with separators.
*/
module FileNames {
  import opened PySeq

  /**
    `name[name.find(open) + len(open):name.find(close)]`. A missing marker
    is not an error: `find` gives -1 and the slice bounds move accordingly.
  */
  function Between(name: string, open: string, close: string): (d: string)
    ensures var i, j := Find(name, open), Find(name, close);
            0 <= i && 0 <= j && i + |open| <= j ==> d == name[i + |open|..j]
    ensures |d| <= |name|
  {
    Slice(name, Find(name, open) + |open|, Find(name, close))
  }

  /**
    A name built as `p + open + d + close + q` gives back `d` when neither
    marker can be found earlier: some character of `open` is absent from
    everything before the place it takes in the real `open`, and likewise
    for `close`.
  */
  lemma BetweenRoundTrip(p: string, open: string, d: string, close: string, q: string, i: nat, j: nat)
    requires i < |open| && open[i] !in p + open[..i]
    requires j < |close| && close[j] !in p + open + d + close[..j]
    ensures Between(p + open + d + close + q, open, close) == d
  {
    var name := p + open + d + close + q;
    assert name == p + open + (d + close + q);
    FindAfter(p, open, d + close + q, i);
    assert name == (p + open + d) + close + q;
    FindAfter(p + open + d, close, q, j);
    assert name[|p| + |open|..|p + open + d|] == d;
  }

  /** `d[0:4] + '-' + d[4:6] + '-' + d[6:8]` */
  function DateYmd(d: string): (r: string)
    ensures |d| >= 8 ==> |r| == 10 && r[4] == '-' && r[7] == '-'
    ensures |d| >= 8 ==> r[0..4] + r[5..7] + r[8..10] == d[..8]
  {
    var r := Slice(d, 0, 4) + "-" + Slice(d, 4, 6) + "-" + Slice(d, 6, 8);
    if |d| >= 8 then
      assert r[0..4] == d[0..4] && r[5..7] == d[4..6] && r[8..10] == d[6..8];
      assert d[..8] == d[0..4] + d[4..6] + d[6..8];
      r
    else r
  }

  /** Only the first eight characters of `d` reach the formatted date. */
  lemma DateYmdPrefix(d: string, t: string)
    requires |d| >= 8
    ensures DateYmd(d[..8] + t) == DateYmd(d)
  {
    var e := d[..8] + t;
    assert e[0..4] == d[0..4] && e[4..6] == d[4..6] && e[6..8] == d[6..8];
  }

  /** `d[0:4]-d[4:6]-d[6:8] d[8:10]:d[10:12] UTC` */
  function DateHm(d: string): (r: string)
    ensures |d| >= 12 ==> |r| == 20 && r[..10] == DateYmd(d) && r[10] == ' ' && r[13] == ':' && r[16..] == " UTC"
    ensures |d| >= 12 ==> r[11..13] == d[8..10] && r[14..16] == d[10..12]
  {
    DateYmd(d) + " " + Slice(d, 8, 10) + ":" + Slice(d, 10, 12) + " UTC"
  }

  /** Only the first twelve characters of `d` reach the formatted date and time. */
  lemma DateHmPrefix(d: string, t: string)
    requires |d| >= 12
    ensures DateHm(d[..12] + t) == DateHm(d)
  {
    var e := d[..12] + t;
    assert e[..8] == d[..8];
    DateYmdPrefix(d, e[8..]);
    assert e == d[..8] + e[8..];
    assert e[8..10] == d[8..10] && e[10..12] == d[10..12];
  }

  /** A `YYYYMMDDHHMM...` string written field by field formats as those fields. */
  lemma DateHmFields(y: string, mo: string, dd: string, hh: string, mi: string, rest: string)
    requires |y| == 4 && |mo| == 2 && |dd| == 2 && |hh| == 2 && |mi| == 2
    ensures DateHm(y + mo + dd + hh + mi + rest) == y + "-" + mo + "-" + dd + " " + hh + ":" + mi + " UTC"
  {
    var d := y + mo + dd + hh + mi + rest;
    assert d[0..4] == y && d[4..6] == mo && d[6..8] == dd && d[8..10] == hh && d[10..12] == mi;
  }

  /** Blended TPW and rain-rate products: the creation time after `_c`. */
  function BlendDate(name: string): (r: string)
    ensures |Between(name, "_c", ".nc")| >= 12 ==> |r| == 20
  {
    DateHm(Between(name, "_c", ".nc"))
  }

  /** TOAST ozone products: the date after `OMPS_`. */
  function OmpsDate(name: string): (r: string)
    ensures |Between(name, "OMPS_", ".grb")| >= 8 ==> |r| == 10 && r[4] == '-' && r[7] == '-'
  {
    DateYmd(Between(name, "OMPS_", ".grb"))
  }

  /** Fire hotspot shapefiles: the date after `MVF_`. */
  function FireDate(name: string): (r: string)
    ensures |Between(name, "MVF_", ".shp")| >= 8 ==> |r| == 10 && r[4] == '-' && r[7] == '-'
  {
    DateYmd(Between(name, "MVF_", ".shp"))
  }

  /**
    A blend name `a + s + '_e' + e + '_c' + d + '.nc'` (product, start time,
    end time, creation time) gives back the creation time when nothing before
    `_c` holds a `c` and nothing before `.nc` holds a `.`.
  */
  lemma BlendCreation(a: string, s: string, e: string, d: string)
    requires 'c' !in a && 'c' !in s && 'c' !in e
    requires '.' !in a && '.' !in s && '.' !in e && '.' !in d
    ensures Between(a + s + "_e" + e + "_c" + d + ".nc" + "", "_c", ".nc") == d
  {
    var p := a + s + "_e" + e;
    assert "_c"[1] == 'c' && ".nc"[0] == '.';
    assert 'c' !in p + "_c"[..1];
    assert '.' !in p + "_c" + d + ".nc"[..0];
    BetweenRoundTrip(p, "_c", d, ".nc", "", 1, 0);
  }

  /** The creation time cut out of the shipped blended TPW name. */
  lemma ShippedTpwCreation()
    ensures Between("BHP-TPW_v01r1_blend_s" + "202304181501193" + "_e" + "202304190256136" + "_c" + ("2023" + "04" + "19" + "03" + "20" + "065") + ".nc" + "", "_c", ".nc") == ("2023" + "04" + "19" + "03" + "20" + "065")
  {
    assert 'c' !in "BHP-TPW_v01r1_blend_s" && '.' !in "BHP-TPW_v01r1_blend_s";
    assert 'c' !in "202304181501193" && '.' !in "202304181501193";
    assert 'c' !in "202304190256136" && '.' !in "202304190256136";
    assert '.' !in ("2023" + "04" + "19" + "03" + "20" + "065");
    BlendCreation("BHP-TPW_v01r1_blend_s", "202304181501193", "202304190256136", ("2023" + "04" + "19" + "03" + "20" + "065"));
  }

  /** The shipped blended TPW name, written as the parts the markers split it into. */
  lemma ShippedTpwName()
    ensures BlendDate("BHP-TPW_v01r1_blend_s" + "202304181501193" + "_e" + "202304190256136" + "_c" + ("2023" + "04" + "19" + "03" + "20" + "065") + ".nc" + "")
              == "2023-04-19 03:20 UTC"
  {
    assert "2023" + "-" + "04" + "-" + "19" + " " + "03" + ":" + "20" + " UTC" == "2023-04-19 03:20 UTC";
    DateHmFields("2023", "04", "19", "03", "20", "065");
    ShippedTpwCreation();
  }

  /** The creation time cut out of the shipped blended rain-rate name. */
  lemma ShippedRainRateCreation()
    ensures Between("BHP-RR_v01r1_blend_s" + "202304190402052" + "_e" + "202304191201136" + "_c" + ("2023" + "04" + "19" + "12" + "29" + "598") + ".nc" + "", "_c", ".nc") == ("2023" + "04" + "19" + "12" + "29" + "598")
  {
    assert 'c' !in "BHP-RR_v01r1_blend_s" && '.' !in "BHP-RR_v01r1_blend_s";
    assert 'c' !in "202304190402052" && '.' !in "202304190402052";
    assert 'c' !in "202304191201136" && '.' !in "202304191201136";
    assert '.' !in ("2023" + "04" + "19" + "12" + "29" + "598");
    BlendCreation("BHP-RR_v01r1_blend_s", "202304190402052", "202304191201136", ("2023" + "04" + "19" + "12" + "29" + "598"));
  }

  /** The shipped blended rain-rate name, written as the parts the markers split it into. */
  lemma ShippedRainRateName()
    ensures BlendDate("BHP-RR_v01r1_blend_s" + "202304190402052" + "_e" + "202304191201136" + "_c" + ("2023" + "04" + "19" + "12" + "29" + "598") + ".nc" + "")
              == "2023-04-19 12:29 UTC"
  {
    assert "2023" + "-" + "04" + "-" + "19" + " " + "12" + ":" + "29" + " UTC" == "2023-04-19 12:29 UTC";
    DateHmFields("2023", "04", "19", "12", "29", "598");
    ShippedRainRateCreation();
  }

  /** A TOAST name `p + 'OMPS_' + d + '.grb'` whose prefix holds no `M` and no `.`. */
  lemma OmpsNameDate(p: string, d: string)
    requires 'M' !in p && '.' !in p && '.' !in d
    ensures OmpsDate(p + "OMPS_" + d + ".grb" + "") == DateYmd(d)
  {
    assert "OMPS_"[1] == 'M' && ".grb"[0] == '.';
    assert 'M' !in p + "OMPS_"[..1];
    assert '.' !in p + "OMPS_" + d + ".grb"[..0];
    BetweenRoundTrip(p, "OMPS_", d, ".grb", "", 1, 0);
  }

  /** The shipped TOAST name, written as its parts. */
  lemma ShippedOmpsName()
    ensures OmpsDate("TOAST_Blended-grb_" + "j01_CRIN_j01_" + "OMPS_" + "20230418" + ".grb" + "") == "2023-04-18"
  {
    assert DateYmd("20230418") == "2023-04-18";
    assert 'M' !in "TOAST_Blended-grb_" && '.' !in "TOAST_Blended-grb_";
    assert 'M' !in "j01_CRIN_j01_" && '.' !in "j01_CRIN_j01_";
    assert '.' !in "20230418";
    OmpsNameDate("TOAST_Blended-grb_" + "j01_CRIN_j01_", "20230418");
  }

  /** A fire name `p + 'MVF_' + d + '.shp'` whose prefix holds no `M` and no `.`. */
  lemma FireNameDate(p: string, d: string)
    requires 'M' !in p && '.' !in p && '.' !in d
    ensures FireDate(p + "MVF_" + d + ".shp" + "") == DateYmd(d)
  {
    assert "MVF_"[0] == 'M' && ".shp"[0] == '.';
    assert 'M' !in p + "MVF_"[..0];
    assert '.' !in p + "MVF_" + d + ".shp"[..0];
    BetweenRoundTrip(p, "MVF_", d, ".shp", "", 0, 0);
  }

  /** The shipped fire hotspot name, written as its parts. */
  lemma ShippedFireName()
    ensures FireDate("INPE_" + "MVF_" + "202304190000" + ".shp" + "") == "2023-04-19"
  {
    assert DateYmd("202304190000") == "2023-04-19";
    FireNameDate("INPE_", "202304190000");
  }

  /** The fields of an ALPW time stamp `YYYYJJJHHMMSS`. */
  datatype AlpwStamp = AlpwStamp(year: string, jday: string, hour: string, minute: string, seconds: string)

  /** `date = name[0:13]`, then year `[0:4]`, day of year `[4:7]`, hour, minute and second. */
  function AlpwFields(name: string): (f: AlpwStamp)
    ensures |name| >= 13 ==>
              && f.year == name[0..4] && f.jday == name[4..7]
              && f.hour == name[7..9] && f.minute == name[9..11] && f.seconds == name[11..13]
    ensures |name| >= 13 ==> f.year + f.jday + f.hour + f.minute + f.seconds == name[..13]
  {
    var date := Slice(name, 0, 13);
    var f := AlpwStamp(Slice(date, 0, 4), Slice(date, 4, 7), Slice(date, 7, 9), Slice(date, 9, 11), Slice(date, 11, 13));
    if |name| >= 13 then
      assert date == name[..13];
      assert f.year == name[0..4] && f.jday == name[4..7];
      assert f.hour == name[7..9] && f.minute == name[9..11] && f.seconds == name[11..13];
      assert name[..13] == name[0..4] + name[4..7] + name[7..9] + name[9..11] + name[11..13];
      f
    else f
  }

  /**
    The formatted ALPW time: the calendar date (`strptime(year + jday,
    '%Y%j')` formatted as `%Y-%m-%d`, given here as `calendarDate`) followed
    by `' ' + hour + ':' + minute + ':' + seconds + ' UTC'`.
  */
  function AlpwFormatted(name: string, calendarDate: string): (r: string)
    ensures |name| >= 13 ==> |r| == |calendarDate| + 13 && r[..|calendarDate|] == calendarDate
    ensures |name| >= 13 ==> r[|calendarDate|..] == " " + name[7..9] + ":" + name[9..11] + ":" + name[11..13] + " UTC"
  {
    var f := AlpwFields(name);
    var tail := " " + f.hour + ":" + f.minute + ":" + f.seconds + " UTC";
    var r := calendarDate + tail;
    assert r[..|calendarDate|] == calendarDate && r[|calendarDate|..] == tail;
    r
  }

  lemma ShippedAlpwName()
    ensures AlpwFields("2021188120000" + "_ADVECT_COMPOSITE.HDF") == AlpwStamp("2021", "188", "12", "00", "00")
  {
    var name := "2021188120000" + "_ADVECT_COMPOSITE.HDF";
    assert name[..13] == "2021188120000";
    var f := AlpwFields(name);
    assert Slice(name, 0, 13) == "2021188120000";
  }
}
