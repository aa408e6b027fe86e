/** The label of a function's entry in the tree (`getTreeItem` in
    src/extension.ts): its 1-based line number, left-padded with spaces to
    the number of digits of the document's line count, three spaces, and its
    signature. */
module Label {
  import opened Wrappers
  import opened Text
  import opened Symbols
  import opened Signatures

  /** The tree item's label for `element` in the editor `ed`. A start line
      is a `nat`, so the branch for a missing or negative start line cannot
      be taken and is not modelled. */
  function TreeItemLabel(ed: Option<Document>, element: Symbol): string {
    match ed
    case None => "No file open"
    case Some(doc) =>
      Row(|doc.lines|, element.startLine, Signature(ed, element))
  }

  /** The label of an entry that starts on the 0-based line `line` of a
      document of `lineCount` lines and has the signature `sig`. */
  function Row(lineCount: nat, line: nat, sig: string): string {
    var paddingWidth := |Decimal(lineCount)|;
    var lineNumber := line + 1;
    PadStart(Decimal(lineNumber), paddingWidth) + "   " + sig
  }

  /** A number written with at most `width` digits and padded to `width`
      reads back as that number once the padding is trimmed. */
  lemma PaddedNumberReadsBack(n: nat, width: nat)
    requires |Decimal(n)| <= width
    ensures |PadStart(Decimal(n), width)| == width
    ensures ParseDecimal(TrimStart(PadStart(Decimal(n), width))) == n
  {
    var d := Decimal(n);
    var p := PadStart(d, width);
    var k := width - |d|;
    assert p == p[..k] + d;
    assert SpaceEnd(p, 0) == k by {
      assert forall i :: 0 <= i < k ==> IsSpace(p[i]);
      assert !IsSpace(p[k]);
      SpaceEndIs(p, 0, k);
    }
    DecimalRoundTrip(n);
  }

  /** For an entry inside the document, every label has the same layout:
      the line number right-aligned with spaces in a column as wide as the
      line count's digits, three spaces, then the signature; and the column
      reads back as the 1-based line number. */
  lemma LabelLayout(lineCount: nat, line: nat, sig: string)
    requires line < lineCount
    ensures var w, shown := |Decimal(lineCount)|, Row(lineCount, line, sig);
            |shown| >= w + 3 && shown[w..w + 3] == "   " && shown[w + 3..] == sig
            && ParseDecimal(TrimStart(shown[..w])) == line + 1
            && RightAligned(shown[..w], Decimal(line + 1))
  {
    DecimalWidthMonotone(line + 1, lineCount);
    ColumnLayout(line + 1, |Decimal(lineCount)|, sig);
  }

  /** `column` ends with `d` and is spaces before it. */
  predicate RightAligned(column: string, d: string) {
    |d| <= |column| && column[|column| - |d|..] == d && forall i :: 0 <= i < |column| - |d| ==> column[i] == ' '
  }

  /** The layout of a padded number followed by three spaces and a text. */
  lemma ColumnLayout(n: nat, w: nat, text: string)
    requires |Decimal(n)| <= w
    ensures var shown := PadStart(Decimal(n), w) + "   " + text;
            |shown| >= w + 3 && shown[w..w + 3] == "   " && shown[w + 3..] == text
            && ParseDecimal(TrimStart(shown[..w])) == n
    ensures RightAligned((PadStart(Decimal(n), w) + "   " + text)[..w], Decimal(n))
  {
    var column := PadStart(Decimal(n), w);
    PaddedNumberReadsBack(n, w);
    ThreeSpacesBetween(column, text);
  }

  /** A column, three spaces and a text can be read apart again. */
  lemma ThreeSpacesBetween(column: string, text: string)
    ensures var shown := column + "   " + text;
            var w := |column|;
            |shown| == w + 3 + |text| && shown[..w] == column && shown[w..w + 3] == "   " && shown[w + 3..] == text
  {
    var shown := column + "   " + text;
    assert shown[..|column|] == column;
  }

}
