/**
 * Concrete tool output and what the parsers of sasutils/ses.py make of it.
 */
module OutputExamples {
  import opened Wrappers
  import opened Text
  import opened ScalarPatterns
  import opened Streams
  import opened Process
  import opened Queries
  import opened LedFinding

  /** `  nickname: ABC123` */
  const NicknameLine := "  " + NicknameLabel + " ABC123"
  /** `  enclosure logical identifier (hex): 5000c5001234abcd` */
  const WwnLine := "  " + WwnLabel + WwnDigits
  const WwnDigits := "5000c5001234abcd"
  /** `[0:0:12:0]  enclosu  HGST  H4060-J  2033  -  /dev/sg12`, a line of `lsscsi -g` */
  const InventoryPrefix := "[0:0:12:0]" + "  " + "enclosu" + "  " + "HGST" + "  " + "H4060-J" + "  " + "2033" + "  " + "-" + "  "
  const InventoryLine := InventoryPrefix + DevLabel + "12"
  /** `  Vendor specific element type, status in hex: 01 00 00 0a` */
  const LedLine := "  " + LedLabel + "0a"

  /** The nickname query returns `ABC123` from the first line that carries it, whatever
      precedes it without a nickname and whatever follows. */
  lemma NicknameExample(before: seq<string>, after: seq<string>, err: seq<string>)
    requires forall k :: 0 <= k < |before| ==> NicknameOf(before[k]).None?
    ensures QueryNickname(Ran(before + [NicknameLine] + after, err)) == Some("ABC123")
  {
    assert NicknameLine == "  " + NicknameLabel + " " + "ABC123" + "";
    NicknameOfLine("  ", " ", "ABC123", "");
    FindFirstStops(before, NicknameLine, after, NicknameOf);
  }

  /** With only a tab after the label, `\s*` gives the tab back to `([^ ]+)`, so
      `  nickname:\t` gives the nickname `\t`. */
  lemma NicknameTabExample()
    ensures NicknameOf("  " + NicknameLabel + "\t") == Some("\t")
  {
    var line := "  " + NicknameLabel + "\t";
    assert line[..2] == "  " && line[2..11] == NicknameLabel && line[11] == '\t' && |line| == 12;
    var m := NicknamePos(2, 11, 12);
    assert NicknameAt(line, m);
    MatchNicknameComplete(line, m);
    assert line[11..12] == "\t";
  }

  /** The WWN query returns the identifier with `0x` in front: `0x5000c5001234abcd`. */
  lemma WwnExample(before: seq<string>, after: seq<string>)
    requires forall k :: 0 <= k < |before| ==> WwnOf(before[k]).None?
    ensures QueryEnclosureWwn(Ran(before + [WwnLine] + after, [])) == Success(Some("0x" + WwnDigits))
  {
    WwnOfExampleLine();
    FindFirstStops(before, WwnLine, after, WwnOf);
  }

  lemma WwnOfExampleLine()
    ensures WwnOf(WwnLine) == Some("0x" + WwnDigits)
  {
    assert WwnLine == "  " + WwnLabel + WwnDigits + "";
    WwnOfLine("  ", WwnDigits, "");
  }

  /** As written, the LED byte `0a` reads as 0. */
  lemma LedExample()
    ensures QueryLedId(Ran([LedLine], [])) == Success(Some(0))
  {
    assert LedLine == "  " + LedLabel + "0" + "a";
    LedFieldOfLine("  ", "0", "a", IsDigit);
    ParseHexOne('0');
    FindFirstStops([], LedLine, [], LedIdOf);
  }

  /** Once the capture takes hexadecimal digits, `0a` reads as 10. */
  lemma LedExampleCorrected()
    ensures QueryLedIdCorrected(Ran([LedLine], [])) == Success(Some(10))
  {
    LedOfExampleLine();
    FindFirstStops([], LedLine, [], LedIdOfCorrected);
  }

  lemma LedOfExampleLine()
    ensures LedIdOfCorrected(LedLine) == Some(10)
  {
    assert LedLine == "  " + LedLabel + ['0', 'a'] + "";
    LedIdCorrectedReadsByte("  ", '0', 'a', "");
  }

  /** A byte of decimal digits is still read in base 16: `12` reads as 18. */
  lemma LedDecimalExample()
    ensures LedIdOf("  " + LedLabel + "12") == Some(18)
  {
    assert "  " + LedLabel + "12" == "  " + LedLabel + ['1', '2'] + "";
    LedFieldOfLine("  ", ['1', '2'], "", IsDigit);
    ParseHexTwo('1', '2');
  }

  lemma InventoryPrefixOneLine()
    ensures forall k :: 0 <= k < |InventoryPrefix| ==> InventoryPrefix[k] != '\n'
  {
  }

  /** The device pattern captures the `sgN` at the end of an `lsscsi -g` line: `sg12`. */
  lemma DeviceExample()
    ensures DeviceOf(InventoryLine) == Some("sg12")
  {
    var line := InventoryLine;
    var n := |InventoryPrefix|;
    assert n == 45 && |line| == 54;
    assert line[n..n + 7] == DevLabel && line[n + 7] == '1' && line[n + 8] == '2';
    InventoryPrefixOneLine();
    assert forall k :: 0 <= k < n ==> line[k] == InventoryPrefix[k];
    var m := DevPos(n, 54);
    assert DevAt(line, m);
    MatchDevComplete(line, m);
    var a := MatchDev(line).value;
    assert a.at == n by {
      if a.at > n { StartsAtChar(line, a.at, DevLabel, 0); }
    }
    assert line[n + 5..54] == "sg12";
  }
}
