/**
 * A section header and a status line of `sg_ses --page=ed --join`, and what the
 * scanner and the status generator of sasutils/ses.py make of them.
 */
module ReportExamples {
  import opened Wrappers
  import opened Text
  import opened ReportPatterns
  import opened EdScanner
  import opened EdRecords
  import opened Streams
  import opened Process

  const Descriptor := "Voltage  3.30V"
  const ElementType := "Voltage sensor"
  /** `Voltage  3.30V [6,0]  Element type: Voltage sensor` */
  const HeaderLine := Descriptor + " [6,0]  " + ElementTypeLabel + " " + ElementType
  /** `  status: OK` */
  const StatusLine := "  " + StatusLabel + " OK"

  // ---------------------------------------------------------------------------
  // Normalisation
  // ---------------------------------------------------------------------------

  /** Group 1 of the header, `Voltage  3.30V `, becomes `Voltage__3_30V`. */
  lemma DescriptorExample()
    ensures DescriptorOf(Descriptor + " ") == "Voltage__3_30V"
  {
    var g := Descriptor + " ";
    assert g[..14] == Descriptor;
    StripIs(g, 0, 14);
    DescriptorSpacesReplaced();
    DescriptorDotsReplaced();
  }

  lemma DescriptorSpacesReplaced()
    ensures Replace(Descriptor, ' ', '_') == "Voltage__3.30V"
  {
    ReplaceIs(Descriptor, ' ', '_', "Voltage__3.30V");
  }

  lemma DescriptorDotsReplaced()
    ensures Replace("Voltage__3.30V", '.', '_') == "Voltage__3_30V"
  {
    ReplaceIs("Voltage__3.30V", '.', '_', "Voltage__3_30V");
  }

  /** Group 2 of the header, `Voltage sensor`, becomes `Voltage_sensor`. */
  lemma ElementTypeExample()
    ensures ElementTypeOf(ElementType) == "Voltage_sensor"
  {
    assert ElementType[0..14] == ElementType;
    StripIs(ElementType, 0, 14);
    ElementTypeReplaced();
  }

  lemma ElementTypeReplaced()
    ensures Replace(ElementType, ' ', '_') == "Voltage_sensor"
  {
    ReplaceIs(ElementType, ' ', '_', "Voltage_sensor");
  }

  // ---------------------------------------------------------------------------
  // The header line
  // ---------------------------------------------------------------------------

  /** Where the parts of the header line lie. */
  lemma HeaderLineParts()
    ensures |HeaderLine| == 50
    ensures HeaderLine[0..15] == Descriptor + " " && HeaderLine[36..50] == ElementType
    ensures StartsAt(HeaderLine, 22, ElementTypeLabel)
    ensures forall k :: 0 <= k < 15 ==> HeaderLine[k] != '['
    ensures HeaderLine[15] == '[' && HeaderLine[19] == ']'
    ensures forall k :: 16 <= k < 50 ==> HeaderLine[k] != '\n'
    ensures forall k :: 20 <= k < 50 ==> HeaderLine[k] != ']'
    ensures HeaderLine[20] == ' ' && HeaderLine[21] == ' ' && HeaderLine[22] == 'E'
    ensures HeaderLine[35] == ' ' && HeaderLine[36] == 'V'
  {
    var line := HeaderLine;
    assert line[..14] == Descriptor;
    assert line[14..22] == " [6,0]  ";
    assert line[22..35] == ElementTypeLabel;
    assert line[35] == ' ';
    assert line[36..] == ElementType;
    assert line[0..15] == Descriptor + " ";
    assert forall k :: 0 <= k < 14 ==> line[k] == Descriptor[k];
    assert forall k :: 14 <= k < 22 ==> line[k] == " [6,0]  "[k - 14];
    assert forall k :: 22 <= k < 35 ==> line[k] == ElementTypeLabel[k - 22];
    assert forall k :: 36 <= k < 50 ==> line[k] == ElementType[k - 36];
  }

  /** The header pattern matches with group 1 `Voltage  3.30V ` and group 2 `Voltage sensor`:
      `[6,0]` is the only bracketed part, and `(.+)` runs to the end of the line. */
  lemma HeaderMatchExample()
    ensures MatchHeader(HeaderLine) == Some(HeaderPos(0, 15, 19, 22, 36, 50))
  {
    var line := HeaderLine;
    HeaderLineParts();
    var h := HeaderPos(0, 15, 19, 22, 36, 50);
    assert HeaderAt(line, h);
    MatchHeaderComplete(line, h);
    var a := MatchHeader(line).value;
    assert a.start == 0;
    assert a.open == 15;
    assert a.close == 19;
    assert a.labelAt == 22 by {
      if a.labelAt < 22 { StartsAtChar(line, a.labelAt, ElementTypeLabel, 0); }
    }
    assert a.typeStart == 36;
  }

  /** The header sets the context `("Voltage_sensor", "Voltage__3_30V")`. */
  lemma HeaderExample()
    ensures IsHeader(HeaderLine)
    ensures HeaderContext(HeaderLine) == Some(Context(Some("Voltage_sensor"), Some("Voltage__3_30V")))
  {
    var line := HeaderLine;
    HeaderLineParts();
    HeaderMatchExample();
    DescriptorExample();
    ElementTypeExample();
    ContainsIff(line, ElementTypeLabel);
    var h := MatchHeader(line).value;
    assert line[h.typeStart..h.typeEnd] == ElementType;
    assert line[h.start..h.open] == Descriptor + " ";
  }

  // ---------------------------------------------------------------------------
  // The status line
  // ---------------------------------------------------------------------------

  /** The scanner yields the status line as `status: OK`. */
  lemma StatusLineStripped()
    ensures Strip(StatusLine) == StatusLabel + " OK"
  {
    var s := StatusLine;
    assert s[2..12] == StatusLabel + " OK";
    StripIs(s, 2, 12);
  }

  /** On `status: OK` the status pattern captures `OK`. */
  lemma StatusMatchExample()
    ensures MatchStatus(StatusLabel + " OK") == Some(StatusPos(0, 8, 10))
  {
    var s := StatusLabel + " OK";
    assert s[..7] == StatusLabel && s[7] == ' ' && s[8] == 'O' && s[9] == 'K';
    var m := StatusPos(0, 8, 10);
    assert StatusAt(s, m);
    MatchStatusComplete(s, m);
    var a := MatchStatus(s).value;
    assert a.start == 0;
    assert a.textStart == 8;
  }

  /** Reading the header line yields nothing and sets the header's context. */
  lemma HeaderLineStep(ctx: Context)
    ensures Emit(ctx, HeaderLine) == []
    ensures Step(ctx, HeaderLine) == Context(Some("Voltage_sensor"), Some("Voltage__3_30V"))
  {
    HeaderExample();
  }

  /** Reading the status line yields it stripped, with the current context. */
  lemma StatusLineStep(ctx: Context)
    ensures Emit(ctx, StatusLine) == [Tagged(ctx.elementType, ctx.descriptor, StatusLabel + " OK")]
  {
    StatusLineStripped();
    assert StatusLine[0] == ' ';
  }

  /** The scanner drops the header and yields the status line with the header's context. */
  lemma ScanExample()
    ensures Scan([HeaderLine, StatusLine]) == [Tagged(Some("Voltage_sensor"), Some("Voltage__3_30V"), StatusLabel + " OK")]
  {
    var lines := [HeaderLine, StatusLine];
    ScanStep(lines, 0);
    ScanStep(lines, 1);
    assert lines[..0] == [] && lines[..2] == lines;
    HeaderLineStep(NoContext);
    StatusLineStep(Context(Some("Voltage_sensor"), Some("Voltage__3_30V")));
  }

  /** The status record of the scanned status line. */
  lemma StatusOfExample(ctx: Context)
    ensures StatusOf(Tagged(ctx.elementType, ctx.descriptor, StatusLabel + " OK")) ==
      Some(StatusRecord(ctx.elementType, ctx.descriptor, "OK"))
  {
    var text := StatusLabel + " OK";
    StatusMatchExample();
    assert text[8..10] == "OK";
    ReplaceIs("OK", ' ', '_', "OK");
  }

  /** `status: Not installed` */
  const SpacedStatusText := StatusLabel + " " + "Not installed"

  /** The status group runs to the end of the line, across the inner space. */
  lemma SpacedStatusMatchExample()
    ensures MatchStatus(SpacedStatusText) == Some(StatusPos(0, 8, 21))
  {
    var s := SpacedStatusText;
    assert s[..7] == StatusLabel && s[7] == ' ' && s[8] == 'N' && |s| == 21;
    assert forall k :: 8 <= k < 21 ==> s[k] != '\n';
    var m := StatusPos(0, 8, 21);
    assert StatusAt(s, m);
    MatchStatusComplete(s, m);
    var a := MatchStatus(s).value;
    assert a.start == 0;
    assert a.textStart == 8;
  }

  lemma NotInstalledReplaced()
    ensures Replace("Not installed", ' ', '_') == "Not_installed"
  {
    ReplaceIs("Not installed", ' ', '_', "Not_installed");
  }

  /** The status record has every space of the group made `_`: `Not_installed`. */
  lemma SpacedStatusExample(ctx: Context)
    ensures StatusOf(Tagged(ctx.elementType, ctx.descriptor, SpacedStatusText)) ==
      Some(StatusRecord(ctx.elementType, ctx.descriptor, "Not_installed"))
  {
    var s := SpacedStatusText;
    SpacedStatusMatchExample();
    assert s[8..21] == "Not installed";
    NotInstalledReplaced();
  }

  /** `ses_get_ed_status` over the header and status lines yields one record, with the
      header's normalised element type and descriptor and the status `OK`. */
  lemma EdStatusExample(err: seq<string>)
    ensures EdStatus(Ran([HeaderLine, StatusLine], err)) ==
      Success([StatusRecord(Some("Voltage_sensor"), Some("Voltage__3_30V"), "OK")])
  {
    var ctx := Context(Some("Voltage_sensor"), Some("Voltage__3_30V"));
    var t := Tagged(ctx.elementType, ctx.descriptor, StatusLabel + " OK");
    ScanExample();
    StatusOfExample(ctx);
    assert [t][1..] == [];
    assert Statuses([t]) == [StatusOf(t).value];
  }

  // ---------------------------------------------------------------------------
  // Metric lines
  // ---------------------------------------------------------------------------

  /** `Temperature=25 C` */
  const MetricText := "Temperature" + "=" + "25" + " " + "C"

  /** The metric pattern reads key `Temperature`, value `25` and unit `C`. */
  lemma MetricMatchExample()
    ensures MatchMetric(MetricText) == Some(MetricPos(0, 11, 12, 12, 14, 14, 15, 16))
  {
    var line := MetricText;
    assert line[..11] == "Temperature" && line[11] == '=' && line[12] == '2' && line[13] == '5';
    assert line[14] == ' ' && line[15] == 'C' && |line| == 16;
    var m := MetricPos(0, 11, 12, 12, 14, 14, 15, 16);
    assert forall k :: 0 <= k < 11 ==> IsWordChar(line[k]);
    assert MetricAt(line, m);
    MatchMetricComplete(line, m);
  }

  /** A metric line gives its record, with the context of its item. */
  lemma MetricExample(ctx: Context)
    ensures MetricOf(Tagged(ctx.elementType, ctx.descriptor, MetricText)) ==
      Some(MetricRecord(ctx.elementType, ctx.descriptor, "Temperature", "25", "C"))
  {
    var line := MetricText;
    MetricMatchExample();
    assert line[0..11] == "Temperature" && line[12..14] == "25" && line[15..16] == "C";
  }

  /** `Voltage: -3.30 V` */
  const SignedMetricText := "Voltage" + ":" + " " + "-3.30" + " " + "V"

  /** The value group takes the sign, the integer part and the fraction. */
  lemma SignedMetricMatchExample()
    ensures MatchMetric(SignedMetricText) == Some(MetricPos(0, 7, 9, 10, 11, 14, 15, 16))
  {
    var line := SignedMetricText;
    assert line[..7] == "Voltage" && line[7] == ':' && line[8] == ' ' && line[9] == '-';
    assert line[10] == '3' && line[11] == '.' && line[12] == '3' && line[13] == '0';
    assert line[14] == ' ' && line[15] == 'V' && |line| == 16;
    var m := MetricPos(0, 7, 9, 10, 11, 14, 15, 16);
    assert forall k :: 0 <= k < 7 ==> IsWordChar(line[k]);
    assert MetricAt(line, m);
    MatchMetricComplete(line, m);
  }

  /** The metric record keeps the value as text, sign and decimal point included: `-3.30`. */
  lemma SignedMetricExample(ctx: Context)
    ensures MetricOf(Tagged(ctx.elementType, ctx.descriptor, SignedMetricText)) ==
      Some(MetricRecord(ctx.elementType, ctx.descriptor, "Voltage", "-3.30", "V"))
  {
    var line := SignedMetricText;
    SignedMetricMatchExample();
    assert line[0..7] == "Voltage" && line[9..14] == "-3.30" && line[15..16] == "V";
  }

  /** Without whitespace between value and unit there is no record: `Temperature=25C`
      yields nothing. */
  lemma MetricNeedsSpaceExample(ctx: Context)
    ensures MetricOf(Tagged(ctx.elementType, ctx.descriptor, "Temperature=25C")).None?
  {
    var line := "Temperature=25C";
    assert forall k :: 0 <= k < |line| ==> !IsSpace(line[k]);
  }
}
