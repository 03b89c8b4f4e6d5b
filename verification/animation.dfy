/**
  The bookkeeping around the GOES-R animation loop: reading the
  `YYYYMMDDHHMM` start and end strings, naming the band, choosing the display
  configuration for a band, and mapping the newest images onto the 24 frame
  names of the HTML animation.
*/
module Animation {
  import opened Outcomes
  import opened PySeq
  import opened Decimal

  /** A wall-clock instant, field by field, as `datetime(y, mo, d, h, mi)` takes it. */
  datatype Moment = Moment(year: int, month: int, day: int, hour: int, minute: int)

  /** The ranges `datetime` accepts, with a four-digit year. */
  predicate ValidMoment(m: Moment) {
    && 1000 <= m.year <= 9999
    && 1 <= m.month <= 12
    && 1 <= m.day <= 31
    && 0 <= m.hour <= 23
    && 0 <= m.minute <= 59
  }

  /** `m.strftime('%Y%m%d%H%M')`: each field zero-padded to its width. */
  function FormatMoment(m: Moment): (s: string)
    requires ValidMoment(m)
    ensures |s| == 12 && AllDigits(s)
  {
    var a, b, c, d, e := Padded(m.year, 4), Padded(m.month, 2), Padded(m.day, 2), Padded(m.hour, 2), Padded(m.minute, 2);
    AllDigitsConcat(a, b);
    AllDigitsConcat(a + b, c);
    AllDigitsConcat(a + b + c, d);
    AllDigitsConcat(a + b + c + d, e);
    a + b + c + d + e
  }

  /**
    `int(s[0:4]), int(s[4:6]), int(s[6:8]), int(s[8:10]), int(s[10:12])`;
    the first field that is not a number raises ValueError.
  */
  function ParseMoment(s: string): (r: Result<Moment>)
    ensures r.Ok? <==> && Numeral(Slice(s, 0, 4)) && Numeral(Slice(s, 4, 6)) && Numeral(Slice(s, 6, 8))
                       && Numeral(Slice(s, 8, 10)) && Numeral(Slice(s, 10, 12))
    ensures r.Err? ==> r.error == ValueError
    ensures |s| <= 10 ==> r == Err(ValueError)
    ensures |s| >= 12 && AllDigits(s[..12]) ==>
              && AllDigits(s[0..4]) && AllDigits(s[4..6]) && AllDigits(s[6..8]) && AllDigits(s[8..10]) && AllDigits(s[10..12])
              && r == Ok(Moment(DigitsValue(s[0..4]), DigitsValue(s[4..6]), DigitsValue(s[6..8]),
                                DigitsValue(s[8..10]), DigitsValue(s[10..12])))
  {
    var year :- ParseInt(Slice(s, 0, 4));
    var month :- ParseInt(Slice(s, 4, 6));
    var day :- ParseInt(Slice(s, 6, 8));
    var hour :- ParseInt(Slice(s, 8, 10));
    var minute :- ParseInt(Slice(s, 10, 12));
    Ok(Moment(year, month, day, hour, minute))
  }

  /** Reading back a formatted instant gives the same instant. */
  lemma ParseFormatMoment(m: Moment)
    requires ValidMoment(m)
    ensures ParseMoment(FormatMoment(m)) == Ok(m)
  {
    var s := FormatMoment(m);
    var a, b, c, d, e := Padded(m.year, 4), Padded(m.month, 2), Padded(m.day, 2), Padded(m.hour, 2), Padded(m.minute, 2);
    assert s == a + b + c + d + e;
    FieldSlices(a, b, c, d, e);
  }

  /** The fixed-width fields of a `YYYYMMDDHHMM` string are where the slices look. */
  lemma FieldSlices(a: string, b: string, c: string, d: string, e: string)
    requires |a| == 4 && |b| == 2 && |c| == 2 && |d| == 2 && |e| == 2
    ensures var s := a + b + c + d + e;
            Slice(s, 0, 4) == a && Slice(s, 4, 6) == b && Slice(s, 6, 8) == c
            && Slice(s, 8, 10) == d && Slice(s, 10, 12) == e
  {
    var s := a + b + c + d + e;
    assert s[0..4] == a;
    assert s[4..6] == b;
    assert s[6..8] == c;
    assert s[8..10] == d;
    assert s[10..12] == e;
  }

  /** `str(band_id).zfill(2)`, the band name used in file names and titles. */
  function BandLabel(id: int): (s: string)
    ensures |s| == if |IntToString(id)| >= 2 then |IntToString(id)| else 2
    ensures ParseInt(s) == Ok(id)
    ensures 0 <= id < 10 ==> s == ['0', DigitChar(id)]
  {
    ParseZFilled(id, 2);
    ZFill(IntToString(id), 2)
  }

  /** The colour tables the classifier loads. */
  datatype Colormap =
    | SquareRootVisible   // 'Square Root Visible Enhancement.cpt'
    | Svgair2Temp         // 'SVGAIR2_TEMP.cpt'
    | SvgawvxTemp         // 'SVGAWVX_TEMP.cpt'
    | Ir4avhrr6           // 'IR4AVHRR6.cpt'

  /**
    How one band is drawn: the colour table, the amount subtracted from the
    data (Kelvin to Celsius), the colour range, the colour-bar tick interval
    and the legend title.
  */
  datatype Display = Display(cmap: Colormap, offset: real, vmin: real, vmax: real, tick: real, title: string)

  const Reflectance := "Reflectance Factor"
  const Brightness := "Brightness Temperatures (°C)"

  /**
    The `if / elif` chain on `int(band)`. The chain has no `else`; the
    result is `None` where no branch would have set the display variables,
    and the contract shows that never happens.
  */
  function Classify(band: int): (r: Option<Display>)
    ensures r.Some?
    ensures r.value.offset != 0.0 <==> band > 6
    ensures band > 6 ==> r.value.offset == 273.15 && r.value.tick == 10.0 && r.value.title == Brightness
    ensures band <= 6 ==> r.value.vmin == 0.0 && r.value.vmax == 1.0 && r.value.tick == 0.1
    ensures r.value.vmin < r.value.vmax && r.value.tick > 0.0
  {
    if band <= 6 then Some(Display(SquareRootVisible, 0.0, 0.0, 1.0, 0.1, Reflectance))
    else if band == 7 then Some(Display(Svgair2Temp, 273.15, -112.15, 56.85, 10.0, Brightness))
    else if band > 7 && band < 11 then Some(Display(SvgawvxTemp, 273.15, -112.15, 56.85, 10.0, Brightness))
    else if band > 10 then Some(Display(Ir4avhrr6, 273.15, -103.0, 84.0, 10.0, Brightness))
    else None
  }

  /** The band numbers each colour table is meant for, as closed ranges. */
  predicate Serves(c: Colormap, band: int) {
    match c
    case SquareRootVisible => band <= 6
    case Svgair2Temp => band == 7
    case SvgawvxTemp => 8 <= band <= 10
    case Ir4avhrr6 => 11 <= band
  }

  /**
    The four ranges partition the integers, and the classifier picks exactly
    the table whose range holds the band.
  */
  lemma ClassifyPartition(band: int, c: Colormap)
    ensures Serves(c, band) <==> Classify(band).value.cmap == c
    ensures exists d :: Serves(d, band)
    ensures forall d :: Serves(c, band) && Serves(d, band) ==> c == d
  {
    assert Serves(Classify(band).value.cmap, band);
  }

  /** `int(band)` on the zero-padded label, then the classifier. */
  function ClassifyLabel(name: string): (r: Result<Display>)
    ensures r.Err? <==> ParseInt(name).Err?
  {
    var band :- ParseInt(name);
    Ok(Classify(band).value)
  }

  /** Padding the band id never changes the configuration chosen for it. */
  lemma ClassifyBandLabel(id: int)
    ensures ClassifyLabel(BandLabel(id)) == Ok(Classify(id).value)
  {
  }

  /** The number of frames the HTML animation shows. */
  const MaxFrames := 24

  /** One `copyfile(src, dst)` call. */
  datatype CopyOp = CopyOp(src: string, dst: string)

  /** `outdir + 'img_' + str(k) + '.png'`, the name of frame `k` (1-based). */
  function FrameName(outdir: string, k: nat): (s: string)
    ensures |s| == |outdir| + 4 + |NatToString(k)| + 4
    ensures s[|outdir| + 4..|s| - 4] == NatToString(k)
  {
    var s := outdir + "img_" + NatToString(k) + ".png";
    assert s[|outdir| + 4..|s| - 4] == NatToString(k);
    s
  }

  /** Different frame numbers name different files. */
  lemma FrameNameInjective(outdir: string, a: nat, b: nat)
    requires FrameName(outdir, a) == FrameName(outdir, b)
    ensures a == b
  {
    var s := FrameName(outdir, a);
    assert NatToString(a) == s[|outdir| + 4..|s| - 4] == NatToString(b);
    NatToStringInjective(a, b);
  }

  /** `files[-24:]`: the newest (last) images, at most 24 of them, in order. */
  function KeptFrames(files: seq<string>): (kept: seq<string>)
    ensures |kept| == if |files| <= MaxFrames then |files| else MaxFrames
    ensures forall k :: 0 <= k < |kept| ==> kept[k] == files[|files| - |kept| + k]
  {
    Slice(files, -MaxFrames, |files|)
  }

  /**
    The copies the frame step makes from the sorted list of matching images:
    frame `k` takes the k-th kept image, and when fewer than 24 images are
    kept the remaining frames repeat the last one. With no image at all,
    `files[-1]` raises IndexError.
  */
  function FrameCopies(outdir: string, files: seq<string>): (r: Result<seq<CopyOp>>)
    ensures r.Err? <==> files == []
    ensures r.Err? ==> r.error == IndexError
    ensures r.Ok? ==> |r.value| == MaxFrames
    ensures r.Ok? ==> forall k :: 0 <= k < MaxFrames ==>
              r.value[k] == CopyOp(files[|files| - |KeptFrames(files)| + Min(k, |KeptFrames(files)| - 1)], FrameName(outdir, k + 1))
  {
    var kept := KeptFrames(files);
    if kept == [] then Err(IndexError)
    else
      var all := seq(MaxFrames, k requires 0 <= k < MaxFrames => CopyOp(FrameSource(kept, k), FrameName(outdir, k + 1)));
      assert forall k :: 0 <= k < MaxFrames ==> FrameSource(kept, k) == files[|files| - |kept| + Min(k, |kept| - 1)];
      Ok(all)
  }

  /**
    The image frame `k + 1` shows: the first loop copies the k-th kept image,
    and the second loop fills the frames past the last kept image with
    `files[-1]`.
  */
  function FrameSource(kept: seq<string>, k: nat): string
    requires kept != []
  {
    if k < |kept| then kept[k] else kept[|kept| - 1]
  }

  function Min(a: int, b: int): int { if a <= b then a else b }

  /** The 24 copies write 24 different files, so none overwrites another. */
  lemma FrameCopiesDistinct(outdir: string, files: seq<string>, a: nat, b: nat)
    requires FrameCopies(outdir, files).Ok?
    requires a < b < MaxFrames
    ensures FrameCopies(outdir, files).value[a].dst != FrameCopies(outdir, files).value[b].dst
  {
    if FrameCopies(outdir, files).value[a].dst == FrameCopies(outdir, files).value[b].dst {
      FrameNameInjective(outdir, a + 1, b + 1);
    }
  }

  /** Every one of the newest 24 images is shown, in the sorted order. */
  lemma NewestFramesShown(outdir: string, files: seq<string>, j: nat)
    requires |files| - MaxFrames <= j < |files|
    ensures FrameCopies(outdir, files).Ok?
    ensures var k := j - (|files| - |KeptFrames(files)|);
            0 <= k < MaxFrames && FrameCopies(outdir, files).value[k] == CopyOp(files[j], FrameName(outdir, k + 1))
  {
  }
}
