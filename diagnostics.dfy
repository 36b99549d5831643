/** The diagnostics tables of include/morphio/errorMessages.h: the
    section-id to line-number table of a reader (DebugInfo), the default
    SWC sample, and the clickable "uri:line:severity" link that prefixes
    every error and warning message. */
module Diagnostics {
  import opened Strings
  import opened MutMorphology

  /** unsigned int / uint32_t. */
  newtype uint32 = x: int | 0 <= x < 0x1_0000_0000

  /** static_cast<int> of an unsigned int: the same 32 bits read as a
      two's-complement number, so values from 2^31 on come out negative. */
  function AsInt32(u: uint32): (r: int)
    ensures -0x8000_0000 <= r < 0x8000_0000
    ensures (r - u as int) % 0x1_0000_0000 == 0
  {
    if u < 0x8000_0000 then u as int else u as int - 0x1_0000_0000
  }

  // ---------------------------------------------------------------------
  // DebugInfo

  /** The std::map<unsigned int, int> of line numbers. */
  type LineTable = map<uint32, int>

  /** getLineNumber: the stored line, or -1 when the id was never set. */
  function LineOf(t: LineTable, sectionId: uint32): int {
    if sectionId in t then t[sectionId] else -1
  }

  /** setLineNumber: store the line, cast to int, under the id. */
  function WithLine(t: LineTable, sectionId: uint32, line: uint32): LineTable {
    t[sectionId := AsInt32(line)]
  }

  /** Reading an id back gives the line last set for it. */
  lemma GetAfterSet(t: LineTable, sectionId: uint32, line: uint32)
    ensures LineOf(WithLine(t, sectionId, line), sectionId) == AsInt32(line)
    ensures line < 0x8000_0000 ==> LineOf(WithLine(t, sectionId, line), sectionId) == line as int
  {
  }

  /** Setting one id leaves the line of every other id as it was. */
  lemma SetKeepsOthers(t: LineTable, sectionId: uint32, line: uint32, other: uint32)
    requires other != sectionId
    ensures LineOf(WithLine(t, sectionId, line), other) == LineOf(t, other)
  {
  }

  /** An id that was never set reads as -1. */
  lemma UnsetIsMinusOne(t: LineTable, sectionId: uint32)
    requires sectionId !in t
    ensures LineOf(t, sectionId) == -1
  {
  }

  /** The cast makes the largest line number read back as -1, the value
      that also means "never set". */
  lemma LargestLineReadsAsUnset(t: LineTable, sectionId: uint32)
    ensures LineOf(WithLine(t, sectionId, 0xFFFF_FFFF), sectionId) == -1
  {
  }

  class DebugInfo {
    var filename: string
    var lineNumbers: LineTable

    constructor (filename: string)
      ensures this.filename == filename && lineNumbers == map[]
      ensures forall id: uint32 :: GetLineNumber(id) == -1
    {
      this.filename := filename;
      lineNumbers := map[];
    }

    method SetLineNumber(sectionId: uint32, line: uint32)
      modifies this
      ensures lineNumbers == WithLine(old(lineNumbers), sectionId, line)
      ensures filename == old(filename)
      ensures GetLineNumber(sectionId) == AsInt32(line)
      ensures forall other: uint32 :: other != sectionId ==> GetLineNumber(other) == old(GetLineNumber(other))
    {
      lineNumbers := lineNumbers[sectionId := AsInt32(line)];
    }

    /** The line stored for the id; an id never set makes at() throw
        out_of_range, which is caught and read as -1. */
    function GetLineNumber(sectionId: uint32): (line: int)
      reads this
      ensures sectionId in lineNumbers ==> line == lineNumbers[sectionId]
      ensures sectionId !in lineNumbers ==> line == -1
    {
      LineOf(lineNumbers, sectionId)
    }
  }

  // ---------------------------------------------------------------------
  // Sample

  /** A sample line of an SWC file. The point array stores diameters. */
  class Sample {
    var diameter: real
    var valid: bool
    var point: Point
    var kind: SectionType
    var parentId: int
    var id: uint32
    var lineNumber: uint32

    /** The default constructor: not valid, of undefined type, without
        parent, at line 0. Diameter, point and id are left uninitialised,
        so nothing is promised about them. */
    constructor ()
      ensures !valid && kind == SectionUndefined && parentId == -1 && lineNumber == 0
    {
      valid := false;
      kind := SectionUndefined;
      parentId := -1;
      lineNumber := 0;
    }
  }

  // ---------------------------------------------------------------------
  // errorLink

  datatype ErrorLevel = Info | Warning | Error

  /** The SEVERITY table. */
  function Severity(level: ErrorLevel): (name: string)
    ensures ':' !in name
  {
    match level
    case Info => "info"
    case Warning => "warning"
    case Error => "error"
  }

  /** The COLOR table: bold blue, bold yellow and bold red. */
  function Color(level: ErrorLevel): (prefix: string)
    ensures |prefix| == 7 && ':' !in prefix
  {
    match level
    case Info => "\U{1B}[1;34m"
    case Warning => "\U{1B}[1;33m"
    case Error => "\U{1B}[1;31m"
  }

  /** COLOR_END: back to the default colour. */
  const ColorEnd: string := "\U{1B}[0m"

  /** The level a severity name stands for. */
  function LevelNamed(name: string): (r: Option<ErrorLevel>)
    ensures r.Some? ==> Severity(r.value) == name
  {
    if name == "info" then Some(Info)
    else if name == "warning" then Some(Warning)
    else if name == "error" then Some(Error)
    else None
  }

  /** The parts a link is made of. */
  datatype Link = Link(uri: string, lineNumber: nat, level: ErrorLevel)

  /** The messages of one file. */
  datatype ErrorMessages = ErrorMessages(uri: string) {
    /** errorLink: colour, uri, ':', the line in decimal, ':', the severity
        name, end of colour. */
    function ErrorLink(lineNumber: nat, level: ErrorLevel): (link: string)
      ensures ParseLink(link) == Some(Link(uri, lineNumber, level))
    {
      ParseLinkOfParts(uri, lineNumber, level);
      Color(level) + uri + ":" + Decimal(lineNumber) + ":" + Severity(level) + ColorEnd
    }
  }

  /** Reads a link back into its parts: the severity after the last ':',
      the line number before it, the uri between the colour and that. */
  function ParseLink(s: string): Option<Link> {
    if |s| < |ColorEnd| || s[|s| - |ColorEnd|..] != ColorEnd then None
    else
      match SplitLast(s[..|s| - |ColorEnd|], ':')
      case None => None
      case Some((head, severity)) =>
        match SplitLast(head, ':')
        case None => None
        case Some((front, digits)) =>
          var level := LevelNamed(severity);
          if level.None? || digits == [] || !AllDigits(digits) then None
          else
            var color := Color(level.value);
            if |front| < |color| || front[..|color|] != color then None
            else Some(Link(front[|color|..], ReadDecimal(digits), level.value))
  }

  lemma LevelNamedSeverity(level: ErrorLevel)
    ensures LevelNamed(Severity(level)) == Some(level)
  {
  }

  /** The text a link is made of reads back as the uri, line number and
      level it was made from, whatever the uri holds (':' included). */
  lemma ParseLinkOfParts(uri: string, lineNumber: nat, level: ErrorLevel)
    ensures ParseLink(Color(level) + uri + ":" + Decimal(lineNumber) + ":" + Severity(level) + ColorEnd)
      == Some(Link(uri, lineNumber, level))
  {
    var color, digits, severity := Color(level), Decimal(lineNumber), Severity(level);
    var front := color + uri;
    var head := front + [':'] + digits;
    var body := head + [':'] + severity;
    var s := color + uri + ":" + digits + ":" + severity + ColorEnd;
    assert s == body + ColorEnd;
    assert s[|s| - |ColorEnd|..] == ColorEnd && s[..|s| - |ColorEnd|] == body;
    SplitLastOf(head, ':', severity);
    DigitsHaveNoColon(digits);
    SplitLastOf(front, ':', digits);
    LevelNamedSeverity(level);
    assert front[..|color|] == color && front[|color|..] == uri;
    ReadDecimalOfDecimal(lineNumber);
  }

  lemma DigitsHaveNoColon(digits: string)
    requires AllDigits(digits)
    ensures ':' !in digits
  {
  }

  /** Different parts give different links. */
  lemma ErrorLinkInjective(u1: string, n1: nat, l1: ErrorLevel, u2: string, n2: nat, l2: ErrorLevel)
    requires ErrorMessages(u1).ErrorLink(n1, l1) == ErrorMessages(u2).ErrorLink(n2, l2)
    ensures u1 == u2 && n1 == n2 && l1 == l2
  {
    var link1 := ErrorMessages(u1).ErrorLink(n1, l1);
    var link2 := ErrorMessages(u2).ErrorLink(n2, l2);
  }
}
