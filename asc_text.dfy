/** The fixed texts of the ASC writer and their parentheses. The counting
    lemmas cut each header into short pieces and count piece by piece. */
module AscText {

  /** The header of the CellBody block that opens the output. */
  const CellBodyHeader: string := "(\"CellBody\"\n  (Color Red)\n  (CellBody)\n"

  /** The header of an axon block. */
  const AxonHeader: string := "( (Color Cyan)\n  (Axon)\n"

  /** The header of a dendrite block. */
  const DendriteHeader: string := "( (Color Red)\n  (Dendrite)\n"

  /** A header for apical dendrite blocks, in the form of the dendrite header;
      writer::asc has none. */
  const ApicalHeader: string := "( (Color Red)\n  (Apical)\n"

  /** What ends every block: a closing parenthesis and a blank line. */
  const BlockEnd: string := ")\n\n"

  /** How many times c occurs in s from position i on. */
  function Count(s: string, c: char, i: nat): nat
    requires i <= |s|
    decreases |s| - i
  {
    if i == |s| then 0 else (if s[i] == c then 1 else 0) + Count(s, c, i + 1)
  }

  /** Occurrences add up over a concatenation. */
  lemma {:induction false} CountConcat(a: string, b: string, c: char, i: nat)
    requires i <= |a|
    ensures Count(a + b, c, i) == Count(a, c, i) + Count(b, c, 0)
    decreases |a| - i
  {
    if i == |a| {
      CountShift(a, b, c, 0);
    } else {
      CountConcat(a, b, c, i + 1);
    }
  }

  lemma {:induction false} CountShift(a: string, b: string, c: char, j: nat)
    requires j <= |b|
    ensures Count(a + b, c, |a| + j) == Count(b, c, j)
    decreases |b| - j
  {
    if j < |b| {
      CountShift(a, b, c, j + 1);
    }
  }

  /** The CellBody header cut into the pieces its counting lemmas count. */
  lemma CellBodyCut()
    ensures CellBodyHeader == "(\"CellBo" + "dy\"\n  (C" + "olor Red" + ")\n  (Cel" + "lBody)\n"
  {
  }

  lemma CellBodyOpens()
    ensures Count(CellBodyHeader, '(', 0) == 3
  {
    CellBodyCut();
    CellBodyPiecesOpens();
    CountConcat("(\"CellBo", "dy\"\n  (C", '(', 0);
    CountConcat("(\"CellBo" + "dy\"\n  (C", "olor Red", '(', 0);
    CountConcat("(\"CellBo" + "dy\"\n  (C" + "olor Red", ")\n  (Cel", '(', 0);
    CountConcat("(\"CellBo" + "dy\"\n  (C" + "olor Red" + ")\n  (Cel", "lBody)\n", '(', 0);
  }

  lemma CellBodyPiecesOpens()
    ensures Count("(\"CellBo", '(', 0) == 1
      && Count("dy\"\n  (C", '(', 0) == 1
      && Count("olor Red", '(', 0) == 0
      && Count(")\n  (Cel", '(', 0) == 1
      && Count("lBody)\n", '(', 0) == 0
  {
  }

  lemma CellBodyCloses()
    ensures Count(CellBodyHeader, ')', 0) == 2
  {
    CellBodyCut();
    CellBodyPiecesCloses();
    CountConcat("(\"CellBo", "dy\"\n  (C", ')', 0);
    CountConcat("(\"CellBo" + "dy\"\n  (C", "olor Red", ')', 0);
    CountConcat("(\"CellBo" + "dy\"\n  (C" + "olor Red", ")\n  (Cel", ')', 0);
    CountConcat("(\"CellBo" + "dy\"\n  (C" + "olor Red" + ")\n  (Cel", "lBody)\n", ')', 0);
  }

  lemma CellBodyPiecesCloses()
    ensures Count("(\"CellBo", ')', 0) == 0
      && Count("dy\"\n  (C", ')', 0) == 0
      && Count("olor Red", ')', 0) == 0
      && Count(")\n  (Cel", ')', 0) == 1
      && Count("lBody)\n", ')', 0) == 1
  {
  }

  /** The axon header cut into the pieces its counting lemmas count. */
  lemma AxonCut()
    ensures AxonHeader == "( (Color" + " Cyan)\n " + " (Axon)\n"
  {
  }

  lemma AxonOpens()
    ensures Count(AxonHeader, '(', 0) == 3
  {
    AxonCut();
    AxonPiecesOpens();
    CountConcat("( (Color", " Cyan)\n ", '(', 0);
    CountConcat("( (Color" + " Cyan)\n ", " (Axon)\n", '(', 0);
  }

  lemma AxonPiecesOpens()
    ensures Count("( (Color", '(', 0) == 2
      && Count(" Cyan)\n ", '(', 0) == 0
      && Count(" (Axon)\n", '(', 0) == 1
  {
  }

  lemma AxonCloses()
    ensures Count(AxonHeader, ')', 0) == 2
  {
    AxonCut();
    AxonPiecesCloses();
    CountConcat("( (Color", " Cyan)\n ", ')', 0);
    CountConcat("( (Color" + " Cyan)\n ", " (Axon)\n", ')', 0);
  }

  lemma AxonPiecesCloses()
    ensures Count("( (Color", ')', 0) == 0
      && Count(" Cyan)\n ", ')', 0) == 1
      && Count(" (Axon)\n", ')', 0) == 1
  {
  }

  /** The dendrite header cut into the pieces its counting lemmas count. */
  lemma DendriteCut()
    ensures DendriteHeader == "( (Color" + " Red)\n  " + "(Dendrit" + "e)\n"
  {
  }

  lemma DendriteOpens()
    ensures Count(DendriteHeader, '(', 0) == 3
  {
    DendriteCut();
    DendritePiecesOpens();
    CountConcat("( (Color", " Red)\n  ", '(', 0);
    CountConcat("( (Color" + " Red)\n  ", "(Dendrit", '(', 0);
    CountConcat("( (Color" + " Red)\n  " + "(Dendrit", "e)\n", '(', 0);
  }

  lemma DendritePiecesOpens()
    ensures Count("( (Color", '(', 0) == 2
      && Count(" Red)\n  ", '(', 0) == 0
      && Count("(Dendrit", '(', 0) == 1
      && Count("e)\n", '(', 0) == 0
  {
  }

  lemma DendriteCloses()
    ensures Count(DendriteHeader, ')', 0) == 2
  {
    DendriteCut();
    DendritePiecesCloses();
    CountConcat("( (Color", " Red)\n  ", ')', 0);
    CountConcat("( (Color" + " Red)\n  ", "(Dendrit", ')', 0);
    CountConcat("( (Color" + " Red)\n  " + "(Dendrit", "e)\n", ')', 0);
  }

  lemma DendritePiecesCloses()
    ensures Count("( (Color", ')', 0) == 0
      && Count(" Red)\n  ", ')', 0) == 1
      && Count("(Dendrit", ')', 0) == 0
      && Count("e)\n", ')', 0) == 1
  {
  }

  /** The apical header cut into the pieces its counting lemmas count. */
  lemma ApicalCut()
    ensures ApicalHeader == "( (Color" + " Red)\n  " + "(Apical)" + "\n"
  {
  }

  lemma ApicalOpens()
    ensures Count(ApicalHeader, '(', 0) == 3
  {
    ApicalCut();
    ApicalPiecesOpens();
    CountConcat("( (Color", " Red)\n  ", '(', 0);
    CountConcat("( (Color" + " Red)\n  ", "(Apical)", '(', 0);
    CountConcat("( (Color" + " Red)\n  " + "(Apical)", "\n", '(', 0);
  }

  lemma ApicalPiecesOpens()
    ensures Count("( (Color", '(', 0) == 2
      && Count(" Red)\n  ", '(', 0) == 0
      && Count("(Apical)", '(', 0) == 1
      && Count("\n", '(', 0) == 0
  {
  }

  lemma ApicalCloses()
    ensures Count(ApicalHeader, ')', 0) == 2
  {
    ApicalCut();
    ApicalPiecesCloses();
    CountConcat("( (Color", " Red)\n  ", ')', 0);
    CountConcat("( (Color" + " Red)\n  ", "(Apical)", ')', 0);
    CountConcat("( (Color" + " Red)\n  " + "(Apical)", "\n", ')', 0);
  }

  lemma ApicalPiecesCloses()
    ensures Count("( (Color", ')', 0) == 0
      && Count(" Red)\n  ", ')', 0) == 1
      && Count("(Apical)", ')', 0) == 1
      && Count("\n", ')', 0) == 0
  {
  }

  lemma BlockEndCounts()
    ensures Count(BlockEnd, '(', 0) == 0 && Count(BlockEnd, ')', 0) == 1
  {
  }
}
