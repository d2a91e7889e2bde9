/** Plate-text validation and correction, candidate selection over the OCR readings of one crop,
    and the per-frame plate search of the ANPR detector. The vehicle and plate detectors and the
    OCR engine are inputs: their outputs are given as sequences. */
module Detector {
  import opened Wrappers
  import opened PyStr

  // ---------------------------------------------------------------------------------------------
  // Plate format (Argentine Mercosur layout: two letters, three digits, two letters)

  const PlateLength: nat := 7

  /** Letters that OCR reads where a digit belongs, and the digit they stand for. */
  const CharToInt: map<char, char> := map['O' := '0', 'I' := '1', 'J' := '3', 'B' := '8', 'S' := '5']

  /** Digits that OCR reads where a letter belongs; '3' and '8' both stand for 'B'. */
  const IntToChar: map<char, char> := map['0' := 'O', '1' := 'I', '3' := 'B', '8' := 'B', '5' := 'S']

  /** Positions 2, 3 and 4 hold digits; every other position holds a letter. */
  predicate IsDigitSlot(i: int) { i == 2 || i == 3 || i == 4 }

  /** The per-position test of the format check. */
  predicate SlotAccepts(i: int, c: char) {
    if IsDigitSlot(i) then IsDigit(c) || c in CharToInt else IsAlpha(c) || c in IntToChar
  }

  /** `_license_complies_format` */
  predicate CompliesFormat(text: string) {
    |text| == PlateLength && forall i :: 0 <= i < PlateLength ==> SlotAccepts(i, text[i])
  }

  /** Letters at 0, 1, 5, 6 and digits at 2, 3, 4. */
  predicate Canonical(text: string) {
    |text| == PlateLength &&
    forall i :: 0 <= i < PlateLength ==> if IsDigitSlot(i) then IsDigit(text[i]) else IsAlpha(text[i])
  }

  /** Canonical, with upper-case letters: the shape of every accepted plate text. */
  predicate PlateText(text: string) {
    |text| == PlateLength &&
    forall i :: 0 <= i < PlateLength ==> if IsDigitSlot(i) then IsDigit(text[i]) else IsAsciiUpper(text[i])
  }

  /** `table.get(c, c)` */
  function Lookup(table: map<char, char>, c: char): char {
    if c in table then table[c] else c
  }

  /** The character the correction emits at position i. */
  function Corrected(i: int, c: char): char {
    if IsDigitSlot(i) then Lookup(CharToInt, c) else Lookup(IntToChar, c)
  }

  /** The value `_format_license` returns. */
  function Formatted(text: string): string {
    seq(|text|, i requires 0 <= i < |text| => Corrected(i, text[i]))
  }

  /** `_format_license`: builds the corrected text one position at a time. */
  method FormatLicense(text: string) returns (r: string)
    ensures r == Formatted(text)
  {
    var result: seq<char> := [];
    for i := 0 to |text|
      invariant |result| == i
      invariant forall k :: 0 <= k < i ==> result[k] == Corrected(k, text[k])
    {
      var ch := text[i];
      if IsDigitSlot(i) {
        result := result + [Lookup(CharToInt, ch)];
      } else {
        result := result + [Lookup(IntToChar, ch)];
      }
    }
    r := result;
  }

  /** A string whose length is not 7 never complies. */
  lemma LengthMismatchRejected(text: string)
    requires |text| != PlateLength
    ensures !CompliesFormat(text)
  {
  }

  /** The format check spelled out with the look-alike characters listed. */
  lemma CompliesFormatCharacterised(text: string)
    requires |text| == PlateLength
    ensures CompliesFormat(text) <==>
      forall i :: 0 <= i < PlateLength ==>
        if IsDigitSlot(i) then
          IsDigit(text[i]) || text[i] in {'O', 'I', 'J', 'B', 'S'}
        else
          IsAlpha(text[i]) || text[i] in {'0', '1', '3', '8', '5'}
  {
    assert CharToInt.Keys == {'O', 'I', 'J', 'B', 'S'};
    assert IntToChar.Keys == {'0', '1', '3', '8', '5'};
  }

  /** The correction at one position, written out as a table. */
  lemma CorrectedTable(i: int, c: char)
    ensures IsDigitSlot(i) ==>
      Corrected(i, c) == (if c == 'O' then '0' else if c == 'I' then '1' else if c == 'J' then '3'
                          else if c == 'B' then '8' else if c == 'S' then '5' else c)
    ensures !IsDigitSlot(i) ==>
      Corrected(i, c) == (if c == '0' then 'O' else if c == '1' then 'I' else if c == '3' || c == '8' then 'B'
                          else if c == '5' then 'S' else c)
  {
  }

  /** The correction keeps the length and changes a character only when it is one of the
      look-alikes of its position. */
  lemma FormattedChangesOnlyLookAlikes(text: string, i: int)
    requires 0 <= i < |text|
    ensures |Formatted(text)| == |text|
    ensures Formatted(text)[i] != text[i] ==>
      if IsDigitSlot(i) then text[i] in CharToInt else text[i] in IntToChar
  {
  }

  /** The table is not a bijection: '3' and '8' collide on 'B', 'J' is corrected only where a
      digit belongs, and a digit-slot 'J' does not come back as 'J' in a letter slot. */
  lemma CorrectionIsAsymmetric()
    ensures Corrected(0, '3') == 'B' && Corrected(0, '8') == 'B'
    ensures Corrected(0, 'J') == 'J' && Corrected(2, 'J') == '3'
    ensures Corrected(0, Corrected(2, 'J')) == 'B'
    ensures Formatted("A3123CD") == Formatted("A8123CD") == "AB123CD"
  {
    assert Formatted("A3123CD") == "AB123CD";
    assert Formatted("A8123CD") == "AB123CD";
  }

  lemma CorrectedIdempotent(i: int, c: char)
    ensures Corrected(i, Corrected(i, c)) == Corrected(i, c)
  {
    CorrectedTable(i, c);
    CorrectedTable(i, Corrected(i, c));
  }

  /** Correcting twice is correcting once. */
  lemma FormattedIdempotent(text: string)
    ensures Formatted(Formatted(text)) == Formatted(text)
  {
    forall i | 0 <= i < |text|
      ensures Formatted(Formatted(text))[i] == Formatted(text)[i]
    {
      CorrectedIdempotent(i, text[i]);
    }
  }

  /** A text already in the canonical alphabet comes back unchanged. */
  lemma CanonicalUnchanged(text: string)
    requires Canonical(text)
    ensures Formatted(text) == text
  {
    forall i | 0 <= i < |text|
      ensures Formatted(text)[i] == text[i]
    {
      CorrectedTable(i, text[i]);
    }
  }

  /** Every compliant text is corrected into the canonical alphabet, and every canonical text
      complies; upper-case letters stay upper-case. */
  lemma CorrectionCanonicalises(text: string)
    ensures CompliesFormat(text) ==> Canonical(Formatted(text))
    ensures (CompliesFormat(text) && forall k :: 0 <= k < |text| ==> !IsAsciiLower(text[k]))
      ==> PlateText(Formatted(text))
    ensures Canonical(text) ==> CompliesFormat(text)
  {
    forall i | 0 <= i < |text|
      ensures var c := Formatted(text)[i]; c == Corrected(i, text[i])
    {
      CorrectedTable(i, text[i]);
    }
    forall i | 0 <= i < |text| {
      CorrectedTable(i, text[i]);
    }
  }

  // ---------------------------------------------------------------------------------------------
  // _read_plate: the best reading over the three preprocessing variants

  /** One `(bbox, text, score)` triple returned by the OCR engine; the bbox is unused. */
  datatype OcrCandidate = OcrCandidate(text: string, score: real)

  /** A corrected plate text and the OCR confidence it was read with. */
  datatype Reading = Reading(text: string, score: real)

  /** `text.upper().replace(' ', '')` */
  function Normalize(raw: string): string {
    RemoveChar(UpperStr(raw), ' ')
  }

  /** The score a new candidate must beat: `best_score`, which starts at 0.0. */
  function ScoreToBeat(best: Option<Reading>): real {
    if best.Some? then best.value.score else 0.0
  }

  /** One pass of the inner loop of `_read_plate`. */
  function Consider(best: Option<Reading>, c: OcrCandidate): Option<Reading> {
    var t := Normalize(c.text);
    if CompliesFormat(t) && c.score > ScoreToBeat(best) then Some(Reading(Formatted(t), c.score)) else best
  }

  /** The reading left by scanning the candidates in order. */
  function BestReading(cs: seq<OcrCandidate>): Option<Reading>
    decreases |cs|
  {
    if cs == [] then None else Consider(BestReading(cs[..|cs| - 1]), cs[|cs| - 1])
  }

  /** The candidates of all variants, variant by variant, in order. */
  function Flatten(variants: seq<seq<OcrCandidate>>): seq<OcrCandidate>
    decreases |variants|
  {
    if variants == [] then [] else Flatten(variants[..|variants| - 1]) + variants[|variants| - 1]
  }

  lemma BestReadingSnoc(cs: seq<OcrCandidate>, c: OcrCandidate)
    ensures BestReading(cs + [c]) == Consider(BestReading(cs), c)
  {
    assert (cs + [c])[..|cs|] == cs;
  }

  /** `_read_plate` after preprocessing: `variants[v]` is what OCR read in variant v. Returns the
      pair (text, score) as one optional reading; None stands for `(None, None)`. */
  method ReadPlate(variants: seq<seq<OcrCandidate>>) returns (reading: Option<Reading>)
    ensures reading == BestReading(Flatten(variants))
  {
    var bestText: Option<string> := None;
    var bestScore: real := 0.0;
    for v := 0 to |variants|
      invariant bestText.None? ==> bestScore == 0.0
      invariant BestReading(Flatten(variants[..v])) ==
        if bestText.Some? then Some(Reading(bestText.value, bestScore)) else None
    {
      var detections := variants[v];
      ghost var done := Flatten(variants[..v]);
      assert done + detections[..0] == done;
      for d := 0 to |detections|
        invariant bestText.None? ==> bestScore == 0.0
        invariant BestReading(done + detections[..d]) ==
          if bestText.Some? then Some(Reading(bestText.value, bestScore)) else None
      {
        var c := detections[d];
        ghost var before := if bestText.Some? then Some(Reading(bestText.value, bestScore)) else None;
        var text := Normalize(c.text);
        if CompliesFormat(text) {
          text := FormatLicense(text);
          if c.score > bestScore {
            bestText, bestScore := Some(text), c.score;
          }
        }
        assert (if bestText.Some? then Some(Reading(bestText.value, bestScore)) else None) == Consider(before, c);
        assert done + detections[..d + 1] == (done + detections[..d]) + [c];
        BestReadingSnoc(done + detections[..d], c);
      }
      assert variants[..v + 1][..v] == variants[..v];
      assert detections[..|detections|] == detections;
    }
    assert variants[..|variants|] == variants;
    reading := if bestText.Some? then Some(Reading(bestText.value, bestScore)) else None;
  }

  /** A candidate that can win: it complies after normalisation and beats the initial 0.0. */
  predicate Eligible(c: OcrCandidate) {
    CompliesFormat(Normalize(c.text)) && c.score > 0.0
  }

  /** Candidate k is the first among those with the highest score. */
  ghost predicate ReadingWinsAt(cs: seq<OcrCandidate>, k: int) {
    0 <= k < |cs| && Eligible(cs[k]) &&
    (forall j :: 0 <= j < k && Eligible(cs[j]) ==> cs[j].score < cs[k].score) &&
    (forall j :: k < j < |cs| && Eligible(cs[j]) ==> cs[j].score <= cs[k].score)
  }

  /** A candidate with its format verdict and corrected text worked out, so that the scan
      below can be reasoned about without unfolding the format check. */
  datatype Graded = Graded(ok: bool, text: string, score: real)

  function Grade(c: OcrCandidate): Graded {
    var t := Normalize(c.text);
    Graded(CompliesFormat(t), Formatted(t), c.score)
  }

  function Grades(cs: seq<OcrCandidate>): seq<Graded> {
    seq(|cs|, j requires 0 <= j < |cs| => Grade(cs[j]))
  }

  /** `Consider` over a graded candidate. */
  function Step(best: Option<Reading>, g: Graded): Option<Reading> {
    if g.ok && g.score > ScoreToBeat(best) then Some(Reading(g.text, g.score)) else best
  }

  /** `BestReading` over graded candidates. */
  function Scan(gs: seq<Graded>): Option<Reading>
    decreases |gs|
  {
    if gs == [] then None else Step(Scan(gs[..|gs| - 1]), gs[|gs| - 1])
  }

  predicate GradedEligible(g: Graded) {
    g.ok && g.score > 0.0
  }

  ghost predicate ScanWinsAt(gs: seq<Graded>, k: int) {
    0 <= k < |gs| && GradedEligible(gs[k]) &&
    (forall j :: 0 <= j < k && GradedEligible(gs[j]) ==> gs[j].score < gs[k].score) &&
    (forall j :: k < j < |gs| && GradedEligible(gs[j]) ==> gs[j].score <= gs[k].score)
  }

  lemma {:induction false} BestReadingIsScan(cs: seq<OcrCandidate>)
    ensures BestReading(cs) == Scan(Grades(cs))
  {
    if cs != [] {
      var n := |cs|;
      BestReadingIsScan(cs[..n - 1]);
      assert Grades(cs)[..n - 1] == Grades(cs[..n - 1]);
    }
  }

  lemma {:induction false} ScanIsFirstMaximum(gs: seq<Graded>)
    ensures Scan(gs).None? <==> forall j :: 0 <= j < |gs| ==> !GradedEligible(gs[j])
    ensures Scan(gs).Some? ==>
      exists k :: ScanWinsAt(gs, k) && Scan(gs).value == Reading(gs[k].text, gs[k].score)
  {
    if gs != [] {
      var n := |gs|;
      var init := gs[..n - 1];
      var last := gs[n - 1];
      ScanIsFirstMaximum(init);
      assert forall j :: 0 <= j < n - 1 ==> init[j] == gs[j];
      var prev := Scan(init);
      if prev.None? {
        if GradedEligible(last) {
          assert ScanWinsAt(gs, n - 1);
        }
      } else {
        var k :| ScanWinsAt(init, k) && prev.value == Reading(init[k].text, init[k].score);
        if last.ok && last.score > prev.value.score {
          assert ScanWinsAt(gs, n - 1);
        } else {
          assert ScanWinsAt(gs, k);
        }
      }
    }
  }

  /** `_read_plate` returns the corrected text of the first eligible candidate with the highest
      score, with that score; it returns nothing exactly when no candidate is eligible. */
  lemma BestReadingIsFirstMaximum(cs: seq<OcrCandidate>)
    ensures BestReading(cs).None? <==> forall j :: 0 <= j < |cs| ==> !Eligible(cs[j])
    ensures BestReading(cs).Some? ==>
      exists k :: ReadingWinsAt(cs, k) && BestReading(cs).value == Reading(Formatted(Normalize(cs[k].text)), cs[k].score)
  {
    var gs := Grades(cs);
    BestReadingIsScan(cs);
    ScanIsFirstMaximum(gs);
    forall j | 0 <= j < |cs|
      ensures GradedEligible(gs[j]) == Eligible(cs[j]) && gs[j].score == cs[j].score
    {
      assert gs[j] == Grade(cs[j]);
    }
    if BestReading(cs).Some? {
      var k :| ScanWinsAt(gs, k) && Scan(gs).value == Reading(gs[k].text, gs[k].score);
      assert gs[k].text == Formatted(Normalize(cs[k].text));
      assert ReadingWinsAt(cs, k);
    }
  }

  /** Whatever `_read_plate` returns is an upper-case canonical plate read with a positive score. */
  lemma ReadingIsPlateText(cs: seq<OcrCandidate>)
    ensures BestReading(cs).Some? ==> PlateText(BestReading(cs).value.text) && BestReading(cs).value.score > 0.0
  {
    BestReadingIsFirstMaximum(cs);
    if BestReading(cs).Some? {
      var k :| ReadingWinsAt(cs, k) &&
        BestReading(cs).value == Reading(Formatted(Normalize(cs[k].text)), cs[k].score);
      NormalizeHasNoLowerCase(cs[k].text);
      CorrectionCanonicalises(Normalize(cs[k].text));
    }
  }

  lemma NormalizeHasNoLowerCase(raw: string)
    ensures forall k :: 0 <= k < |Normalize(raw)| ==> !IsAsciiLower(Normalize(raw)[k])
  {
    RemoveCharRemoves(UpperStr(raw), ' ');
    forall k | 0 <= k < |Normalize(raw)|
      ensures !IsAsciiLower(Normalize(raw)[k])
    {
      assert Normalize(raw)[k] in Normalize(raw);
    }
  }

  // ---------------------------------------------------------------------------------------------
  // detect_plate_from_frame

  /** One row `x1, y1, x2, y2, score, cls` of a detector's output; coordinates are taken to be
      whole, non-negative pixels. */
  datatype YoloBox = YoloBox(x1: nat, y1: nat, x2: nat, y2: nat, score: real, cls: int)

  /** An integer pixel rectangle. */
  datatype Box = Box(x1: nat, y1: nat, x2: nat, y2: nat)

  /** The rows `top:bottom` and columns `left:right` of the frame handed to OCR. */
  datatype Crop = Crop(top: nat, bottom: nat, left: nat, right: nat)

  /** The dict the detector returns: text, text_score, bbox and bbox_score. */
  datatype Detection = Detection(text: string, textScore: real, bbox: Box, bboxScore: real)

  /** COCO classes car, motorcycle, bus and truck. */
  const VehicleClasses: set<int> := {2, 3, 5, 7}
  const CropPad: nat := 4
  const MinTextScore: real := 0.4

  function Min(a: int, b: int): int { if a <= b then a else b }
  function Max(a: int, b: int): int { if a >= b then a else b }

  function BoxOf(b: YoloBox): Box { Box(b.x1, b.y1, b.x2, b.y2) }

  /** The vehicle boxes kept by the first loop, in detector order. */
  function VehicleBoxes(raw: seq<YoloBox>): seq<Box>
    decreases |raw|
  {
    if raw == [] then []
    else
      var b := raw[|raw| - 1];
      VehicleBoxes(raw[..|raw| - 1]) + (if b.cls in VehicleClasses then [BoxOf(b)] else [])
  }

  /** The first loop of `detect_plate_from_frame`. */
  method CollectVehicleBoxes(raw: seq<YoloBox>) returns (boxes: seq<Box>)
    ensures boxes == VehicleBoxes(raw)
  {
    boxes := [];
    for k := 0 to |raw|
      invariant boxes == VehicleBoxes(raw[..k])
    {
      var b := raw[k];
      if b.cls in VehicleClasses {
        boxes := boxes + [BoxOf(b)];
      }
      assert raw[..k + 1][..k] == raw[..k];
    }
    assert raw[..|raw|] == raw;
  }

  /** Only detections of the four vehicle classes become vehicle boxes, and all of them do. */
  lemma {:induction false} VehicleBoxesAreTheVehicleClasses(raw: seq<YoloBox>, b: Box)
    ensures b in VehicleBoxes(raw) <==> exists k :: 0 <= k < |raw| && raw[k].cls in VehicleClasses && BoxOf(raw[k]) == b
  {
    if raw != [] {
      var init := raw[..|raw| - 1];
      VehicleBoxesAreTheVehicleClasses(init, b);
      assert forall k :: 0 <= k < |init| ==> init[k] == raw[k];
      if exists k :: 0 <= k < |raw| && raw[k].cls in VehicleClasses && BoxOf(raw[k]) == b {
        var k :| 0 <= k < |raw| && raw[k].cls in VehicleClasses && BoxOf(raw[k]) == b;
        if k < |init| {
          assert init[k].cls in VehicleClasses && BoxOf(init[k]) == b;
        }
      }
    }
  }

  /** Length of a numpy slice `lo:hi` of an axis of length n, for non-negative bounds. */
  function SliceLength(lo: nat, hi: nat, n: nat): nat {
    var l := Min(lo, n);
    var h := Min(hi, n);
    if h > l then h - l else 0
  }

  /** `crop.size == 0` for the unpadded crop. */
  predicate CropIsEmpty(p: Box, height: nat, width: nat) {
    SliceLength(p.y1, p.y2, height) == 0 || SliceLength(p.x1, p.x2, width) == 0
  }

  /** The crop widened by 4 pixels on each side and clamped to the frame. */
  function PaddedCrop(p: Box, height: nat, width: nat): Crop {
    Crop(Max(0, p.y1 - CropPad), Min(height, p.y2 + CropPad), Max(0, p.x1 - CropPad), Min(width, p.x2 + CropPad))
  }

  predicate Inside(p: Box, v: Box) {
    p.x1 >= v.x1 && p.y1 >= v.y1 && p.x2 <= v.x2 && p.y2 <= v.y2
  }

  predicate InsideSomeVehicle(p: Box, vehicles: seq<Box>) {
    exists k :: 0 <= k < |vehicles| && Inside(p, vehicles[k])
  }

  /** The plate box survives both `continue`s of the plate loop. */
  predicate Admitted(p: Box, vehicles: seq<Box>, height: nat, width: nat) {
    !CropIsEmpty(p, height, width) && (InsideSomeVehicle(p, vehicles) || |vehicles| == 0)
  }

  /** The inner containment loop, with its early `break`. */
  method ContainedInSomeVehicle(p: Box, vehicles: seq<Box>) returns (inside: bool)
    ensures inside <==> InsideSomeVehicle(p, vehicles)
  {
    inside := false;
    var k := 0;
    while k < |vehicles|
      invariant 0 <= k <= |vehicles|
      invariant forall j :: 0 <= j < k ==> !Inside(p, vehicles[j])
    {
      var v := vehicles[k];
      if p.x1 >= v.x1 && p.y1 >= v.y1 && p.x2 <= v.x2 && p.y2 <= v.y2 {
        inside := true;
        break;
      }
      k := k + 1;
    }
  }

  /** The detection a plate box would contribute: its reading, if it is admitted and read. */
  function CandidateOf(pb: YoloBox, vehicles: seq<Box>, height: nat, width: nat,
                       ocr: Crop -> seq<seq<OcrCandidate>>): Option<Detection>
  {
    var p := BoxOf(pb);
    if !Admitted(p, vehicles, height, width) then None
    else
      match BestReading(Flatten(ocr(PaddedCrop(p, height, width))))
      case None => None
      case Some(r) => Some(Detection(r.text, r.score, p, pb.score))
  }

  /** The incumbent is replaced only by a strictly higher text score. */
  function Keep(best: Option<Detection>, cand: Option<Detection>): Option<Detection> {
    if cand.Some? && (best.None? || cand.value.textScore > best.value.textScore) then cand else best
  }

  /** What each plate box would contribute, in detector order. */
  function CandidatesOf(plates: seq<YoloBox>, vehicles: seq<Box>, height: nat, width: nat,
                        ocr: Crop -> seq<seq<OcrCandidate>>): seq<Option<Detection>>
  {
    seq(|plates|, j requires 0 <= j < |plates| => CandidateOf(plates[j], vehicles, height, width, ocr))
  }

  /** The incumbent after considering the candidates in order. */
  function BestOf(cands: seq<Option<Detection>>): Option<Detection>
    decreases |cands|
  {
    if cands == [] then None else Keep(BestOf(cands[..|cands| - 1]), cands[|cands| - 1])
  }

  /** The best detection after scanning the plate boxes in order. */
  function BestDetection(plates: seq<YoloBox>, vehicles: seq<Box>, height: nat, width: nat,
                         ocr: Crop -> seq<seq<OcrCandidate>>): Option<Detection>
  {
    BestOf(CandidatesOf(plates, vehicles, height, width, ocr))
  }

  /** The OCR threshold applied after the loop. */
  function Accept(best: Option<Detection>): Option<Detection> {
    if best.Some? && best.value.textScore >= MinTextScore then best else None
  }

  /** `detect_plate_from_frame`: `vehicles` and `plates` are the two detectors' rows, the frame
      is `height` by `width`, and `ocr` gives the OCR readings of the three variants of a crop. */
  method DetectPlateFromFrame(vehicles: seq<YoloBox>, plates: seq<YoloBox>, height: nat, width: nat,
                              ocr: Crop -> seq<seq<OcrCandidate>>) returns (r: Option<Detection>)
    ensures r == Accept(BestDetection(plates, VehicleBoxes(vehicles), height, width, ocr))
  {
    var vehicleBoxes := CollectVehicleBoxes(vehicles);
    var best: Option<Detection> := None;
    assert CandidatesOf(plates[..0], vehicleBoxes, height, width, ocr) == [];
    for k := 0 to |plates|
      invariant best == BestDetection(plates[..k], vehicleBoxes, height, width, ocr)
    {
      ghost var sofar := CandidatesOf(plates[..k + 1], vehicleBoxes, height, width, ocr);
      assert sofar[..k] == CandidatesOf(plates[..k], vehicleBoxes, height, width, ocr);
      assert sofar[k] == CandidateOf(plates[k], vehicleBoxes, height, width, ocr);
      var pb := plates[k];
      var p := BoxOf(pb);
      if CropIsEmpty(p, height, width) {
        continue;
      }
      var crop := PaddedCrop(p, height, width);
      var inside := ContainedInSomeVehicle(p, vehicleBoxes);
      if !inside && |vehicleBoxes| > 0 {
        continue;
      }
      var reading := ReadPlate(ocr(crop));
      if reading.Some? && (best.None? || reading.value.score > best.value.textScore) {
        best := Some(Detection(reading.value.text, reading.value.score, p, pb.score));
      }
    }
    assert plates[..|plates|] == plates;
    r := if best.Some? && best.value.textScore >= MinTextScore then best else None;
  }

  /** The padded crop of a non-empty box is a non-empty region inside the frame that covers the
      box's visible part. */
  lemma PaddedCropWithinFrame(p: Box, height: nat, width: nat)
    requires !CropIsEmpty(p, height, width)
    ensures var c := PaddedCrop(p, height, width);
      0 <= c.top < c.bottom <= height && 0 <= c.left < c.right <= width &&
      c.top <= p.y1 && Min(p.y2, height) <= c.bottom &&
      c.left <= p.x1 && Min(p.x2, width) <= c.right
  {
  }

  /** With at least one vehicle a plate box must lie inside one of them; with none, every box
      whose crop is not empty is admitted. */
  lemma AdmissionRule(p: Box, vehicles: seq<Box>, height: nat, width: nat)
    ensures |vehicles| > 0 ==>
      (Admitted(p, vehicles, height, width) <==>
        !CropIsEmpty(p, height, width) && exists v :: v in vehicles && Inside(p, v))
    ensures |vehicles| == 0 ==> (Admitted(p, vehicles, height, width) <==> !CropIsEmpty(p, height, width))
  {
    if exists v :: v in vehicles && Inside(p, v) {
      var v :| v in vehicles && Inside(p, v);
      var k :| 0 <= k < |vehicles| && vehicles[k] == v;
    }
  }

  /** The containment examples: a plate box inside the vehicle box is admitted, the same box
      beside a vehicle that does not contain it is not, and with no vehicle at all it is. */
  lemma ContainmentExamples()
    ensures Admitted(Box(50, 50, 150, 90), [Box(10, 10, 200, 200)], 480, 640)
    ensures !Admitted(Box(50, 50, 150, 90), [Box(100, 100, 300, 300)], 480, 640)
    ensures Admitted(Box(50, 50, 150, 90), [], 480, 640)
  {
    assert Inside(Box(50, 50, 150, 90), [Box(10, 10, 200, 200)][0]);
  }

  /** Candidate k is present and is the first of the highest text scores. */
  ghost predicate DetectionWinsAt(cands: seq<Option<Detection>>, k: int) {
    0 <= k < |cands| && cands[k].Some? &&
    (forall j :: 0 <= j < k && cands[j].Some? ==> cands[j].value.textScore < cands[k].value.textScore) &&
    (forall j :: k < j < |cands| && cands[j].Some? ==> cands[j].value.textScore <= cands[k].value.textScore)
  }

  /** Across plate boxes the first box with the highest text score wins, and there is a winner
      exactly when some box is admitted and read. */
  lemma {:induction false} BestOfIsFirstMaximum(cands: seq<Option<Detection>>)
    ensures BestOf(cands).None? <==> forall j :: 0 <= j < |cands| ==> cands[j].None?
    ensures BestOf(cands).Some? ==> exists k :: DetectionWinsAt(cands, k) && BestOf(cands) == cands[k]
  {
    if cands != [] {
      var n := |cands|;
      var init := cands[..n - 1];
      BestOfIsFirstMaximum(init);
      assert forall j :: 0 <= j < n - 1 ==> init[j] == cands[j];
      var prev := BestOf(init);
      var cand := cands[n - 1];
      if prev.None? {
        if cand.Some? {
          assert DetectionWinsAt(cands, n - 1);
        }
      } else {
        var k :| DetectionWinsAt(init, k) && prev == init[k];
        if cand.Some? && cand.value.textScore > prev.value.textScore {
          assert DetectionWinsAt(cands, n - 1);
        } else {
          assert DetectionWinsAt(cands, k);
        }
      }
    }
  }

  /** What the detector returns is an upper-case canonical plate read with score at least 0.4
      from an admitted plate box, whose rectangle it reports. */
  lemma DetectionIsAccepted(plates: seq<YoloBox>, vehicles: seq<Box>, height: nat, width: nat,
                            ocr: Crop -> seq<seq<OcrCandidate>>)
    ensures var r := Accept(BestDetection(plates, vehicles, height, width, ocr));
      r.Some? ==>
        r.value.textScore >= MinTextScore && PlateText(r.value.text) &&
        exists k :: 0 <= k < |plates| && Admitted(BoxOf(plates[k]), vehicles, height, width) &&
          r.value.bbox == BoxOf(plates[k]) && r.value.bboxScore == plates[k].score
    ensures var best := BestDetection(plates, vehicles, height, width, ocr);
      (best.Some? && best.value.textScore < MinTextScore) ==> Accept(best).None?
  {
    var cands := CandidatesOf(plates, vehicles, height, width, ocr);
    BestOfIsFirstMaximum(cands);
    var best := BestDetection(plates, vehicles, height, width, ocr);
    if best.Some? {
      var k :| DetectionWinsAt(cands, k) && best == cands[k];
      var p := BoxOf(plates[k]);
      ReadingIsPlateText(Flatten(ocr(PaddedCrop(p, height, width))));
    }
  }

  lemma NormalizeOfPlainPlate(t: string)
    requires PlateText(t)
    ensures Normalize(t) == t && CompliesFormat(t) && Formatted(t) == t
  {
    assert UpperStr(t) == t;
    RemoveCharRemoves(t, ' ');
    CorrectionCanonicalises(t);
    CanonicalUnchanged(t);
  }

  /** OCR that reads "AB123CD" at `first` and "AB128CD" at 0.3 in one variant, whatever the crop. */
  function ScenarioOcr(first: real): Crop -> seq<seq<OcrCandidate>> {
    (c: Crop) => [[OcrCandidate("AB123CD", first), OcrCandidate("AB128CD", 0.3)]]
  }

  lemma PlainPlates()
    ensures PlateText("AB123CD") && PlateText("AB128CD")
  {
    var a, b := "AB123CD", "AB128CD";
    assert forall i :: 0 <= i < PlateLength ==> if IsDigitSlot(i) then IsDigit(a[i]) else IsAsciiUpper(a[i]);
    assert forall i :: 0 <= i < PlateLength ==> if IsDigitSlot(i) then IsDigit(b[i]) else IsAsciiUpper(b[i]);
  }

  lemma ScenarioReading(first: real)
    requires first > 0.3
    ensures BestReading(Flatten(ScenarioOcr(first)(Crop(0, 0, 0, 0)))) == Some(Reading("AB123CD", first))
  {
    var a, b := "AB123CD", "AB128CD";
    PlainPlates();
    NormalizeOfPlainPlate(a);
    NormalizeOfPlainPlate(b);
    var cs := [OcrCandidate(a, first), OcrCandidate(b, 0.3)];
    var vs: seq<seq<OcrCandidate>> := [cs];
    assert vs[..0] == [];
    assert Flatten(vs) == cs;
    assert cs[..1] == [cs[0]] && [cs[0]][..0] == [];
    var r0 := Consider(None, cs[0]);
    assert r0 == Some(Reading(a, first));
    assert BestReading(cs[..1]) == r0;
    assert Consider(r0, cs[1]) == r0;
  }

  /** The plate box (50,50,150,90) inside the vehicle box (10,10,200,200) of a 480x640 frame
      becomes the candidate that reads "AB123CD" at the best OCR score. */
  lemma ScenarioCandidate(first: real, pb: YoloBox, vehicles: seq<Box>)
    requires first > 0.3
    requires pb == YoloBox(50, 50, 150, 90, 0.9, 0) && vehicles == [Box(10, 10, 200, 200)]
    ensures CandidateOf(pb, vehicles, 480, 640, ScenarioOcr(first))
      == Some(Detection("AB123CD", first, Box(50, 50, 150, 90), 0.9))
  {
    var p := BoxOf(pb);
    assert p == Box(50, 50, 150, 90);
    assert Inside(p, vehicles[0]);
    assert Admitted(p, vehicles, 480, 640);
    ScenarioReading(first);
    var crop := PaddedCrop(p, 480, 640);
    assert ScenarioOcr(first)(crop) == ScenarioOcr(first)(Crop(0, 0, 0, 0));
  }

  /** A vehicle box (10,10,200,200), one plate box (50,50,150,90) inside it, and OCR readings
      "AB123CD" at score s and "AB128CD" at 0.3: the detector reports "AB123CD" at s when
      s >= 0.4 (0.6, say) and nothing when s < 0.4 (0.35, say). */
  lemma PipelineScenario(first: real)
    requires first > 0.3
    ensures var vehicles := VehicleBoxes([YoloBox(10, 10, 200, 200, 0.8, 2)]);
      var plates := [YoloBox(50, 50, 150, 90, 0.9, 0)];
      var r := Accept(BestDetection(plates, vehicles, 480, 640, ScenarioOcr(first)));
      (first >= 0.4 ==> r == Some(Detection("AB123CD", first, Box(50, 50, 150, 90), 0.9))) &&
      (first < 0.4 ==> r.None?)
  {
    var vehicles := VehicleBoxes([YoloBox(10, 10, 200, 200, 0.8, 2)]);
    assert vehicles == [Box(10, 10, 200, 200)];
    var plates := [YoloBox(50, 50, 150, 90, 0.9, 0)];
    ScenarioCandidate(first, plates[0], vehicles);
    var cands := CandidatesOf(plates, vehicles, 480, 640, ScenarioOcr(first));
    assert cands == [Some(Detection("AB123CD", first, Box(50, 50, 150, 90), 0.9))];
    assert cands[..0] == [];
  }
}
