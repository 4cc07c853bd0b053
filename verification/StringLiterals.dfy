/** String and character literals: adjacent literals are scanned as one span, which
    is decoded afterwards. */
module StringLiterals {
  import opened Wrappers

  datatype Kind = CharConstant | StringConstant
  {
    function Delimiter(): char {
      if CharConstant? then '\'' else '"'
    }
  }

  datatype LexError = ExpectMore | InvalidNewline | EscapeInvalid | InvalidEmpty | InvalidMultichar

  /** Overrun: the scanner has stepped over the byte behind its input, where the count
      of the bytes that are left wraps round. */
  datatype Result<+T> = Ok(value: T) | Err(error: LexError) | Overrun

  predicate IsSpace(c: char) {
    c == ' ' || (9 as char <= c && c <= 13 as char)
  }

  const BACKSLASH: char := '\\'
  const NEWLINE: char := '\n'

  /** The character of an escape sequence, when there is one. */
  function MapEscape(c: char): Option<char> {
    if c == '\'' || c == '"' || c == '?' || c == BACKSLASH then Some(c)
    else if c == 'a' then Some(7 as char)
    else if c == 'b' then Some(8 as char)
    else if c == 'f' then Some(12 as char)
    else if c == 'n' then Some(NEWLINE)
    else if c == 'r' then Some(13 as char)
    else if c == 't' then Some(9 as char)
    else if c == 'v' then Some(11 as char)
    else None
  }

  /** The bytes that escape letters stand for (section 5.2.2 of ISO C11 in the ASCII
      code); the others stand for themselves. */
  const ESCAPED: map<char, int> := map[
    'a' := 0x07, 'b' := 0x08, 't' := 0x09, 'n' := 0x0A, 'v' := 0x0B, 'f' := 0x0C, 'r' := 0x0D,
    '"' := 0x22, '\'' := 0x27, '?' := 0x3F, '\\' := 0x5C]

  /** Which letters can be escaped, which bytes are spaces, and what encloses a literal. */
  lemma CharactersMean(c: char)
    ensures MapEscape(c).Some? <==> c in ESCAPED
    ensures c in ESCAPED ==> MapEscape(c).value as int == ESCAPED[c]
    ensures IsSpace(c) <==> c as int in {0x20, 0x09, 0x0A, 0x0B, 0x0C, 0x0D}
    ensures c == CharConstant.Delimiter() <==> c as int == 0x27
    ensures c == StringConstant.Delimiter() <==> c as int == 0x22
  {
  }

  // -------------------------------------------------------------------- scanning

  /** The first place from i on that holds no space. */
  function SkipSpaces(text: string, i: nat): (j: nat)
    requires i <= |text|
    ensures i <= j <= |text|
    ensures forall k :: i <= k < j ==> IsSpace(text[k])
    ensures j < |text| ==> !IsSpace(text[j])
    decreases |text| - i
  {
    if i < |text| && IsSpace(text[i]) then SkipSpaces(text, i + 1) else i
  }

  /** After the quote at i another literal begins. */
  predicate Continues(text: string, i: nat, kind: Kind)
    requires i < |text|
  {
    SkipSpaces(text, i + 1) < |text| && text[SkipSpaces(text, i + 1)] == kind.Delimiter()
  }

  datatype Span = Span(last: nat, plain: bool)

  /** What the scanner sees in place i, the byte behind the input included. */
  function ByteAt(text: string, behind: char, i: nat): char
    requires i <= |text|
  {
    if i == |text| then behind else text[i]
  }

  /** The last closing quote, and whether the span needs no decoding. What follows a
      backslash is looked at before the end of the input is tested for. */
  function Scan(text: string, behind: char, i: nat, kind: Kind, plain: bool): (r: Result<Span>)
    requires i <= |text|
    ensures r.Ok? ==> i <= r.value.last < |text| && text[r.value.last] == kind.Delimiter()
    decreases |text| - i
  {
    if i == |text| then Err(ExpectMore)
    else if text[i] == kind.Delimiter() then
      if Continues(text, i, kind) then Scan(text, behind, SkipSpaces(text, i + 1) + 1, kind, false) else Ok(Span(i, plain))
    else if text[i] == NEWLINE then Err(InvalidNewline)
    else if text[i] == BACKSLASH then
      if MapEscape(ByteAt(text, behind, i + 1)).None? then Err(EscapeInvalid)
      else if i + 1 == |text| then Overrun
      else Scan(text, behind, i + 2, kind, false)
    else Scan(text, behind, i + 1, kind, plain)
  }

  /** The scanner looks at the byte behind its input. */
  predicate LooksBehind(text: string, i: nat, kind: Kind)
    requires i <= |text|
    decreases |text| - i
  {
    i < |text| &&
    if text[i] == kind.Delimiter() then Continues(text, i, kind) && LooksBehind(text, SkipSpaces(text, i + 1) + 1, kind)
    else if text[i] == BACKSLASH then i + 1 == |text| || (MapEscape(text[i + 1]).Some? && LooksBehind(text, i + 2, kind))
    else text[i] != NEWLINE && LooksBehind(text, i + 1, kind)
  }

  // -------------------------------------------------------------------- decoding

  datatype Mode = Inside | Escaped | Between

  /** What the decoder makes of the characters from i up to last; nothing when one
      of its assertions fails. */
  function Decode(text: string, i: nat, last: nat, kind: Kind, mode: Mode): Option<string>
    requires i <= last <= |text|
    decreases last - i
  {
    if i == last then (if mode.Inside? then Some("") else None)
    else
      match mode
      case Between =>
        if text[i] == kind.Delimiter() then Decode(text, i + 1, last, kind, Inside)
        else if IsSpace(text[i]) then Decode(text, i + 1, last, kind, Between)
        else None
      case Escaped =>
        var c :- MapEscape(text[i]);
        var others :- Decode(text, i + 1, last, kind, Inside);
        Some([c] + others)
      case Inside =>
        if text[i] == kind.Delimiter() then Decode(text, i + 1, last, kind, Between)
        else if text[i] == BACKSLASH then Decode(text, i + 1, last, kind, Escaped)
        else
          var others :- Decode(text, i + 1, last, kind, Inside);
          Some([text[i]] + others)
  }

  datatype Lexed = Lexed(value: string, last: nat)

  function CheckSize(value: string, last: nat, kind: Kind): Result<Lexed> {
    if kind.StringConstant? || |value| == 1 then Ok(Lexed(value, last))
    else if value == "" then Err(InvalidEmpty)
    else Err(InvalidMultichar)
  }

  // ---------------------------------------------------------- what a text spells

  /** One character of a literal, as itself or as an escape sequence. */
  datatype Piece = Plain(c: char) | Escape(letter: char)

  predicate ValidPiece(p: Piece, kind: Kind) {
    match p
    case Plain(c) => c != kind.Delimiter() && c != NEWLINE && c != BACKSLASH
    case Escape(letter) => MapEscape(letter).Some?
  }

  function Meaning(p: Piece, kind: Kind): char
    requires ValidPiece(p, kind)
  {
    match p case Plain(c) => c case Escape(letter) => MapEscape(letter).value
  }

  function Width(p: Piece): nat {
    if p.Plain? then 1 else 2
  }

  predicate PieceAt(text: string, i: nat, p: Piece, kind: Kind) {
    && ValidPiece(p, kind) && i + Width(p) <= |text|
    && (match p case Plain(c) => text[i] == c case Escape(letter) => text[i] == BACKSLASH && text[i + 1] == letter)
  }

  /** The pieces stand in the text from i up to j. */
  predicate PiecesAt(text: string, i: nat, pieces: seq<Piece>, j: nat, kind: Kind)
    decreases |pieces|
  {
    if pieces == [] then i == j
    else PieceAt(text, i, pieces[0], kind) && PiecesAt(text, i + Width(pieces[0]), pieces[1..], j, kind)
  }

  function MeaningOf(pieces: seq<Piece>, kind: Kind): string {
    if pieces == [] then ""
    else (if ValidPiece(pieces[0], kind) then [Meaning(pieces[0], kind)] else "") + MeaningOf(pieces[1..], kind)
  }

  /** Literals next to one another; each but the last is followed by the place of
      its closing quote and that of the next opening one. */
  datatype Literals = Last(pieces: seq<Piece>) | More(pieces: seq<Piece>, close: nat, open: nat, others: Literals)

  /** The text behind an opening quote, up to the last closing quote. */
  predicate Reads(text: string, i: nat, l: Literals, last: nat, kind: Kind)
    decreases l
  {
    match l
    case Last(pieces) =>
      last < |text| && PiecesAt(text, i, pieces, last, kind) && text[last] == kind.Delimiter() && !Continues(text, last, kind)
    case More(pieces, close, open, others) =>
      && close < open < |text| && PiecesAt(text, i, pieces, close, kind)
      && text[close] == text[open] == kind.Delimiter() && (forall k :: close < k < open ==> IsSpace(text[k]))
      && Reads(text, open + 1, others, last, kind)
  }

  function MeaningOfAll(l: Literals, kind: Kind): string
    decreases l
  {
    MeaningOf(l.pieces, kind) + if l.Last? then "" else MeaningOfAll(l.others, kind)
  }

  predicate IsPlain(l: Literals) {
    l.Last? && forall i :: 0 <= i < |l.pieces| ==> l.pieces[i].Plain?
  }

  lemma {:induction false} PiecesInside(text: string, i: nat, pieces: seq<Piece>, j: nat, kind: Kind)
    requires PiecesAt(text, i, pieces, j, kind) && i <= |text|
    ensures i <= j <= |text|
    decreases |pieces|
  {
    if pieces != [] {
      PiecesInside(text, i + Width(pieces[0]), pieces[1..], j, kind);
    }
  }

  lemma {:induction false} ScanPieces(text: string, behind: char, i: nat, pieces: seq<Piece>, j: nat, kind: Kind, plain: bool)
    requires i <= |text| && PiecesAt(text, i, pieces, j, kind)
    ensures i <= j <= |text|
    ensures Scan(text, behind, i, kind, plain) == Scan(text, behind, j, kind, plain && forall k :: 0 <= k < |pieces| ==> pieces[k].Plain?)
    decreases |pieces|
  {
    PiecesInside(text, i, pieces, j, kind);
    if pieces != [] {
      var p, rest := pieces[0], pieces[1..];
      ScanPieces(text, behind, i + Width(p), rest, j, kind, plain && p.Plain?);
      assert forall k :: 0 <= k < |rest| ==> rest[k] == pieces[k + 1];
      assert (forall k :: 0 <= k < |pieces| ==> pieces[k].Plain?) <==> p.Plain? && forall k :: 0 <= k < |rest| ==> rest[k].Plain?;
      assert text[i] != kind.Delimiter();
    }
  }

  lemma {:induction false} SpacesSkipped(text: string, i: nat, j: nat)
    requires i <= j < |text| && !IsSpace(text[j]) && forall k :: i <= k < j ==> IsSpace(text[k])
    ensures SkipSpaces(text, i) == j
    decreases j - i
  {
    if i < j {
      SpacesSkipped(text, i + 1, j);
    }
  }

  /** A text that spells literals is scanned to the last quote. */
  lemma {:induction false} ScanReads(text: string, behind: char, i: nat, l: Literals, last: nat, kind: Kind, plain: bool)
    requires i <= |text| && Reads(text, i, l, last, kind)
    ensures Scan(text, behind, i, kind, plain) == Ok(Span(last, plain && IsPlain(l)))
    decreases l
  {
    hide PiecesAt, Scan;
    match l
    case Last(pieces) =>
      ScanPieces(text, behind, i, pieces, last, kind, plain);
      ScanStops(text, behind, last, kind, plain && IsPlain(l));
    case More(pieces, close, open, others) =>
      ScanPieces(text, behind, i, pieces, close, kind, plain);
      SpacesSkipped(text, close + 1, open);
      ScanGoesOn(text, behind, close, open, kind, plain && forall k :: 0 <= k < |pieces| ==> pieces[k].Plain?);
      ScanReads(text, behind, open + 1, others, last, kind, false);
  }

  lemma ScanStops(text: string, behind: char, i: nat, kind: Kind, plain: bool)
    requires i < |text| && text[i] == kind.Delimiter() && !Continues(text, i, kind)
    ensures Scan(text, behind, i, kind, plain) == Ok(Span(i, plain))
  {
  }

  lemma ScanGoesOn(text: string, behind: char, close: nat, open: nat, kind: Kind, plain: bool)
    requires close < open < |text| && text[close] == text[open] == kind.Delimiter() && SkipSpaces(text, close + 1) == open
    ensures Scan(text, behind, close, kind, plain) == Scan(text, behind, open + 1, kind, false)
  {
  }

  /** What the scanner accepts is a text that spells literals. */
  lemma {:induction false} ScannedReads(text: string, behind: char, i: nat, kind: Kind, plain: bool) returns (l: Literals)
    requires i <= |text| && Scan(text, behind, i, kind, plain).Ok?
    ensures Reads(text, i, l, Scan(text, behind, i, kind, plain).value.last, kind)
    decreases |text| - i
  {
    hide PiecesAt, PieceAt, MapEscape, IsSpace;
    if text[i] == kind.Delimiter() {
      hide Reads;
      if Continues(text, i, kind) {
        var open := SkipSpaces(text, i + 1);
        var others := ScannedReads(text, behind, open + 1, kind, false);
        l := AnotherInFront(text, i, open, others, Scan(text, behind, i, kind, plain).value.last, kind);
      } else {
        l := Last([]);
        LastHere(text, i, kind);
      }
    } else if text[i] == BACKSLASH {
      var others := ScannedReads(text, behind, i + 2, kind, false);
      l := PieceInFront(text, i, Escape(text[i + 1]), others, Scan(text, behind, i, kind, plain).value.last, kind);
    } else {
      var others := ScannedReads(text, behind, i + 1, kind, plain);
      l := PieceInFront(text, i, Plain(text[i]), others, Scan(text, behind, i, kind, plain).value.last, kind);
    }
  }

  lemma NoPieces(text: string, i: nat, kind: Kind)
    ensures PiecesAt(text, i, [], i, kind)
  {
  }

  lemma LastHere(text: string, i: nat, kind: Kind)
    requires i < |text| && text[i] == kind.Delimiter() && !Continues(text, i, kind)
    ensures Reads(text, i, Last([]), i, kind)
  {
  }

  lemma AnotherInFront(text: string, i: nat, open: nat, others: Literals, last: nat, kind: Kind) returns (l: Literals)
    requires i < open < |text| && text[i] == text[open] == kind.Delimiter() && forall k :: i < k < open ==> IsSpace(text[k])
    requires Reads(text, open + 1, others, last, kind)
    ensures Reads(text, i, l, last, kind)
  {
    hide IsSpace;
    NoPieces(text, i, kind);
    l := More([], i, open, others);
  }

  lemma PieceInFront(text: string, i: nat, p: Piece, others: Literals, last: nat, kind: Kind) returns (l: Literals)
    requires i + Width(p) <= |text| && ValidPiece(p, kind)
    requires match p case Plain(c) => text[i] == c case Escape(letter) => text[i] == BACKSLASH && text[i + 1] == letter
    requires Reads(text, i + Width(p), others, last, kind)
    ensures Reads(text, i, l, last, kind)
  {
    l := others.(pieces := [p] + others.pieces);
    assert PieceAt(text, i, p, kind);
    assert l.pieces[1..] == others.pieces;
  }

  // -------------------------------------------------------------------- rejection

  /** Up to j the text is whole literals and gaps, and then the pieces of an open one. */
  predicate Opens(text: string, i: nat, l: Literals, j: nat, kind: Kind)
    decreases l
  {
    match l
    case Last(pieces) => PiecesAt(text, i, pieces, j, kind)
    case More(pieces, close, open, others) =>
      && close < open < |text| && PiecesAt(text, i, pieces, close, kind)
      && text[close] == text[open] == kind.Delimiter() && (forall k :: close < k < open ==> IsSpace(text[k]))
      && Opens(text, open + 1, others, j, kind)
  }

  /** What cannot stand in an open literal. */
  predicate Offends(text: string, behind: char, j: nat, e: LexError) {
    match e
    case ExpectMore => j == |text|
    case InvalidNewline => j < |text| && text[j] == NEWLINE
    case EscapeInvalid => j < |text| && text[j] == BACKSLASH && MapEscape(ByteAt(text, behind, j + 1)).None?
    case _ => false
  }

  /** The scanner rejects a text exactly when it offends somewhere in an open literal, and
      the error says how. */
  lemma RejectedExactly(text: string, behind: char, i: nat, kind: Kind, plain: bool, e: LexError)
    requires i <= |text|
    ensures Scan(text, behind, i, kind, plain) == Err(e) <==> exists l, j :: Opens(text, i, l, j, kind) && Offends(text, behind, j, e)
  {
    hide Scan, Opens, Offends;
    if Scan(text, behind, i, kind, plain) == Err(e) {
      var l, j := OffenceFound(text, behind, i, kind, plain, e);
    }
    if exists l, j :: Opens(text, i, l, j, kind) && Offends(text, behind, j, e) {
      var l, j :| Opens(text, i, l, j, kind) && Offends(text, behind, j, e);
      OffenceRejected(text, behind, i, l, j, kind, plain, e);
    }
  }

  lemma {:induction false} OffenceRejected(text: string, behind: char, i: nat, l: Literals, j: nat, kind: Kind, plain: bool, e: LexError)
    requires i <= |text| && Opens(text, i, l, j, kind) && Offends(text, behind, j, e)
    ensures Scan(text, behind, i, kind, plain) == Err(e)
    decreases l
  {
    hide PiecesAt, Scan;
    match l
    case Last(pieces) =>
      ScanPieces(text, behind, i, pieces, j, kind, plain);
      OffenceHere(text, behind, j, kind, plain && forall k :: 0 <= k < |pieces| ==> pieces[k].Plain?, e);
    case More(pieces, close, open, others) =>
      ScanPieces(text, behind, i, pieces, close, kind, plain);
      SpacesSkipped(text, close + 1, open);
      ScanGoesOn(text, behind, close, open, kind, plain && forall k :: 0 <= k < |pieces| ==> pieces[k].Plain?);
      OffenceRejected(text, behind, open + 1, others, j, kind, false, e);
  }

  lemma OffenceHere(text: string, behind: char, j: nat, kind: Kind, plain: bool, e: LexError)
    requires j <= |text| && Offends(text, behind, j, e)
    ensures Scan(text, behind, j, kind, plain) == Err(e)
  {
  }

  lemma {:induction false} OffenceFound(text: string, behind: char, i: nat, kind: Kind, plain: bool, e: LexError)
    returns (l: Literals, j: nat)
    requires i <= |text| && Scan(text, behind, i, kind, plain) == Err(e)
    ensures Opens(text, i, l, j, kind) && Offends(text, behind, j, e)
    decreases |text| - i
  {
    hide PiecesAt, PieceAt;
    if i < |text| && text[i] == kind.Delimiter() {
      NoPieces(text, i, kind);
      var open := SkipSpaces(text, i + 1);
      var others;
      others, j := OffenceFound(text, behind, open + 1, kind, false, e);
      l := More([], i, open, others);
    } else if Offends(text, behind, i, e) {
      NoPieces(text, i, kind);
      l, j := Last([]), i;
    } else if text[i] == BACKSLASH {
      var others;
      others, j := OffenceFound(text, behind, i + 2, kind, false, e);
      l := OpenPieceInFront(text, i, Escape(text[i + 1]), others, j, kind);
    } else {
      var others;
      others, j := OffenceFound(text, behind, i + 1, kind, plain, e);
      l := OpenPieceInFront(text, i, Plain(text[i]), others, j, kind);
    }
  }

  lemma OpenPieceInFront(text: string, i: nat, p: Piece, others: Literals, j: nat, kind: Kind) returns (l: Literals)
    requires i + Width(p) <= |text| && ValidPiece(p, kind)
    requires match p case Plain(c) => text[i] == c case Escape(letter) => text[i] == BACKSLASH && text[i + 1] == letter
    requires Opens(text, i + Width(p), others, j, kind)
    ensures Opens(text, i, l, j, kind)
  {
    l := others.(pieces := [p] + others.pieces);
    assert PieceAt(text, i, p, kind);
    assert l.pieces[1..] == others.pieces;
  }

  // ------------------------------------------------ a backslash that ends the text

  /** The text behind an opening quote ends in the middle of an escape sequence: whole
      literals and gaps, then the pieces of an open literal, then one backslash. */
  predicate BreaksOff(text: string, i: nat, l: Literals, kind: Kind)
    decreases l
  {
    match l
    case Last(pieces) =>
      |text| > 0 && PiecesAt(text, i, pieces, |text| - 1, kind) && text[|text| - 1] == BACKSLASH
    case More(pieces, close, open, others) =>
      && close < open < |text| && PiecesAt(text, i, pieces, close, kind)
      && text[close] == text[open] == kind.Delimiter() && (forall k :: close < k < open ==> IsSpace(text[k]))
      && BreaksOff(text, open + 1, others, kind)
  }

  /** The scanner looks behind its input exactly when the text breaks off in an escape
      sequence; it steps over the byte there when that is a letter that can be escaped. */
  lemma LooksBehindExactly(text: string, i: nat, kind: Kind)
    requires i <= |text|
    ensures LooksBehind(text, i, kind) <==> exists l :: BreaksOff(text, i, l, kind)
    ensures forall behind, plain :: LooksBehind(text, i, kind) ==>
              Scan(text, behind, i, kind, plain) == if MapEscape(behind).None? then Err(EscapeInvalid) else Overrun
    ensures forall a, b, plain :: !LooksBehind(text, i, kind) ==>
              Scan(text, a, i, kind, plain) == Scan(text, b, i, kind, plain) && !Scan(text, a, i, kind, plain).Overrun?
  {
    hide Scan, LooksBehind, BreaksOff;
    if LooksBehind(text, i, kind) {
      var l := BehindBreaksOff(text, i, kind);
    }
    forall l | BreaksOff(text, i, l, kind) ensures LooksBehind(text, i, kind) {
      BreaksOffBehind(text, i, l, kind);
    }
    forall a, b, plain
      ensures LooksBehind(text, i, kind) ==> Scan(text, a, i, kind, plain) == if MapEscape(a).None? then Err(EscapeInvalid) else Overrun
      ensures !LooksBehind(text, i, kind) ==>
                Scan(text, a, i, kind, plain) == Scan(text, b, i, kind, plain) && !Scan(text, a, i, kind, plain).Overrun?
    {
      ScanBehind(text, a, b, i, kind, plain);
    }
  }

  lemma {:induction false} ScanBehind(text: string, a: char, b: char, i: nat, kind: Kind, plain: bool)
    requires i <= |text|
    ensures LooksBehind(text, i, kind) ==> Scan(text, a, i, kind, plain) == if MapEscape(a).None? then Err(EscapeInvalid) else Overrun
    ensures !LooksBehind(text, i, kind) ==>
              Scan(text, a, i, kind, plain) == Scan(text, b, i, kind, plain) && !Scan(text, a, i, kind, plain).Overrun?
    decreases |text| - i
  {
    hide MapEscape;
    if i < |text| {
      if text[i] == kind.Delimiter() {
        if Continues(text, i, kind) {
          ScanBehind(text, a, b, SkipSpaces(text, i + 1) + 1, kind, false);
        }
      } else if text[i] == BACKSLASH {
        if i + 1 < |text| {
          ScanBehind(text, a, b, i + 2, kind, false);
        }
      } else {
        ScanBehind(text, a, b, i + 1, kind, plain);
      }
    }
  }

  lemma {:induction false} BehindBreaksOff(text: string, i: nat, kind: Kind) returns (l: Literals)
    requires i <= |text| && LooksBehind(text, i, kind)
    ensures BreaksOff(text, i, l, kind)
    decreases |text| - i
  {
    hide PiecesAt;
    NoPieces(text, i, kind);
    if text[i] == kind.Delimiter() {
      var open := SkipSpaces(text, i + 1);
      var others := BehindBreaksOff(text, open + 1, kind);
      l := More([], i, open, others);
    } else if text[i] != BACKSLASH {
      var others := BehindBreaksOff(text, i + 1, kind);
      l := BrokenPieceInFront(text, i, Plain(text[i]), others, kind);
    } else if i + 1 < |text| {
      var others := BehindBreaksOff(text, i + 2, kind);
      l := BrokenPieceInFront(text, i, Escape(text[i + 1]), others, kind);
    } else {
      l := Last([]);
    }
  }

  lemma BrokenPieceInFront(text: string, i: nat, p: Piece, others: Literals, kind: Kind) returns (l: Literals)
    requires PieceAt(text, i, p, kind) && BreaksOff(text, i + Width(p), others, kind)
    ensures BreaksOff(text, i, l, kind)
  {
    l := others.(pieces := [p] + others.pieces);
    assert l.pieces[1..] == others.pieces;
  }

  lemma {:induction false} BreaksOffBehind(text: string, i: nat, l: Literals, kind: Kind)
    requires i <= |text| && BreaksOff(text, i, l, kind)
    ensures LooksBehind(text, i, kind)
    decreases l
  {
    hide PiecesAt, LooksBehind;
    match l
    case Last(pieces) =>
      PiecesPassed(text, i, pieces, |text| - 1, kind);
      LastLooks(text, kind);
    case More(pieces, close, open, others) =>
      PiecesPassed(text, i, pieces, close, kind);
      SpacesSkipped(text, close + 1, open);
      BreaksOffBehind(text, open + 1, others, kind);
      QuotePassed(text, close, open, kind);
  }

  lemma LastLooks(text: string, kind: Kind)
    requires |text| > 0 && text[|text| - 1] == BACKSLASH
    ensures LooksBehind(text, |text| - 1, kind)
  {
  }

  lemma QuotePassed(text: string, close: nat, open: nat, kind: Kind)
    requires close < open < |text| && text[close] == text[open] == kind.Delimiter() && SkipSpaces(text, close + 1) == open
    ensures LooksBehind(text, close, kind) == LooksBehind(text, open + 1, kind)
  {
  }

  lemma {:induction false} PiecesPassed(text: string, i: nat, pieces: seq<Piece>, j: nat, kind: Kind)
    requires i <= |text| && PiecesAt(text, i, pieces, j, kind)
    ensures i <= j <= |text| && LooksBehind(text, i, kind) == LooksBehind(text, j, kind)
    decreases |pieces|
  {
    if pieces != [] {
      PiecesPassed(text, i + Width(pieces[0]), pieces[1..], j, kind);
      assert text[i] != kind.Delimiter();
    }
  }

  /** A quote and a backslash: the scanner looks behind both. */
  lemma LoneBackslash(behind: char, kind: Kind)
    ensures var text := [kind.Delimiter(), BACKSLASH];
            && LooksBehind(text, 1, kind)
            && Lex(text, behind, 0, kind) == if MapEscape(behind).None? then Err(EscapeInvalid) else Overrun
  {
  }

  // ------------------------------------------------------------ decoding a span

  lemma {:induction false} DecodePieces(text: string, i: nat, pieces: seq<Piece>, j: nat, last: nat, kind: Kind)
    requires i <= |text| && PiecesAt(text, i, pieces, j, kind) && j <= last <= |text|
    ensures i <= j
    ensures Decode(text, i, last, kind, Inside) ==
            var others := Decode(text, j, last, kind, Inside);
            if others.None? then None else Some(MeaningOf(pieces, kind) + others.value)
    decreases |pieces|
  {
    PiecesInside(text, i, pieces, j, kind);
    if pieces != [] {
      var p := pieces[0];
      PiecesInside(text, i + Width(p), pieces[1..], j, kind);
      DecodePieces(text, i + Width(p), pieces[1..], j, last, kind);
      OnePiece(text, i, p, last, kind);
      var others := Decode(text, j, last, kind, Inside);
      if others.Some? {
        assert [Meaning(p, kind)] + (MeaningOf(pieces[1..], kind) + others.value) == MeaningOf(pieces, kind) + others.value;
      }
    } else {
      var others := Decode(text, j, last, kind, Inside);
      assert others.Some? ==> "" + others.value == others.value;
    }
  }

  lemma OnePiece(text: string, i: nat, p: Piece, last: nat, kind: Kind)
    requires PieceAt(text, i, p, kind) && i + Width(p) <= last <= |text|
    ensures Decode(text, i, last, kind, Inside) ==
            var others := Decode(text, i + Width(p), last, kind, Inside);
            if others.None? then None else Some([Meaning(p, kind)] + others.value)
  {
    if p.Escape? {
      assert text[i] != kind.Delimiter();
      assert Decode(text, i, last, kind, Inside) == Decode(text, i + 1, last, kind, Escaped);
    }
  }

  lemma {:induction false} DecodeSpaces(text: string, i: nat, j: nat, last: nat, kind: Kind)
    requires i <= j < last <= |text| && text[j] == kind.Delimiter() && forall k :: i <= k < j ==> IsSpace(text[k])
    ensures Decode(text, i, last, kind, Between) == Decode(text, j + 1, last, kind, Inside)
    decreases j - i
  {
    if i < j {
      assert IsSpace(text[i]);
      DecodeSpaces(text, i + 1, j, last, kind);
    }
  }

  lemma {:induction false} LastBehind(text: string, i: nat, l: Literals, last: nat, kind: Kind)
    requires i <= |text| && Reads(text, i, l, last, kind)
    ensures i <= last < |text|
    decreases l
  {
    match l
    case Last(pieces) => PiecesInside(text, i, pieces, last, kind);
    case More(pieces, close, open, others) =>
      PiecesInside(text, i, pieces, close, kind);
      LastBehind(text, open + 1, others, last, kind);
  }

  /** The decoder's assertions hold, and it yields the characters that are meant. */
  lemma {:induction false} DecodeReads(text: string, i: nat, l: Literals, last: nat, kind: Kind)
    requires i <= |text| && Reads(text, i, l, last, kind)
    ensures i <= last <= |text| && Decode(text, i, last, kind, Inside) == Some(MeaningOfAll(l, kind))
    decreases l
  {
    hide PiecesAt, Continues, Decode, MeaningOf;
    LastBehind(text, i, l, last, kind);
    match l
    case Last(pieces) =>
      DecodePieces(text, i, pieces, last, last, kind);
      DecodeEnds(text, last, kind);
    case More(pieces, close, open, others) =>
      LastBehind(text, open + 1, others, last, kind);
      DecodePieces(text, i, pieces, close, last, kind);
      DecodeQuote(text, close, last, kind);
      DecodeSpaces(text, close + 1, open, last, kind);
      DecodeReads(text, open + 1, others, last, kind);
  }

  lemma DecodeEnds(text: string, last: nat, kind: Kind)
    requires last <= |text|
    ensures Decode(text, last, last, kind, Inside) == Some("")
  {
  }

  lemma DecodeQuote(text: string, i: nat, last: nat, kind: Kind)
    requires i < last <= |text| && text[i] == kind.Delimiter()
    ensures Decode(text, i, last, kind, Inside) == Decode(text, i + 1, last, kind, Between)
  {
  }

  /** A span that needs no decoding means itself. */
  lemma {:induction false} PlainMeansItself(text: string, i: nat, pieces: seq<Piece>, j: nat, kind: Kind)
    requires i <= |text| && PiecesAt(text, i, pieces, j, kind) && forall k :: 0 <= k < |pieces| ==> pieces[k].Plain?
    ensures i <= j <= |text| && text[i..j] == MeaningOf(pieces, kind)
    decreases |pieces|
  {
    PiecesInside(text, i, pieces, j, kind);
    if pieces != [] {
      PlainMeansItself(text, i + 1, pieces[1..], j, kind);
      assert text[i..j] == [text[i]] + text[i + 1..j];
    }
  }

  // ----------------------------------------------------------------- the scanner

  /** The value of the literals whose first quote stands at the start. */
  function Lex(text: string, behind: char, start: nat, kind: Kind): Result<Lexed>
    requires start < |text|
  {
    var scanned := Scan(text, behind, start + 1, kind, true);
    if scanned.Err? then Err(scanned.error) else if scanned.Overrun? then Overrun else
    var last := scanned.value.last;
    var value := if scanned.value.plain then Some(text[start + 1..last]) else Decode(text, start + 1, last, kind, Inside);
    CheckSize(if value.Some? then value.value else "", last, kind)
  }

  /** A text that spells literals is accepted, and their characters are joined; those of
      a character constant must be one. */
  lemma LexExactly(text: string, behind: char, start: nat, l: Literals, last: nat, kind: Kind)
    requires start < |text| && Reads(text, start + 1, l, last, kind)
    ensures var meant := MeaningOfAll(l, kind);
            Lex(text, behind, start, kind) ==
              if kind.StringConstant? || |meant| == 1 then Ok(Lexed(meant, last))
              else Err(if |meant| == 0 then InvalidEmpty else InvalidMultichar)
  {
    ScanReads(text, behind, start + 1, l, last, kind, true);
    DecodeReads(text, start + 1, l, last, kind);
    if IsPlain(l) {
      PlainMeansItself(text, start + 1, l.pieces, last, kind);
      assert MeaningOf(l.pieces, kind) + "" == MeaningOf(l.pieces, kind);
    }
  }

  /** The converse: an accepted text spells literals, and the token is what they mean. */
  lemma LexedIsMeant(text: string, behind: char, start: nat, kind: Kind) returns (l: Literals)
    requires start < |text| && Lex(text, behind, start, kind).Ok?
    ensures Reads(text, start + 1, l, Lex(text, behind, start, kind).value.last, kind)
    ensures Lex(text, behind, start, kind).value.value == MeaningOfAll(l, kind)
  {
    l := ScannedReads(text, behind, start + 1, kind, true);
    LexExactly(text, behind, start, l, Scan(text, behind, start + 1, kind, true).value.last, kind);
  }

  // ----------------------------------------------------------------- round trip

  /** A spelling for every character. */
  function PieceOf(c: char): (p: Piece)
    ensures ValidPiece(p, StringConstant) && Meaning(p, StringConstant) == c
  {
    if c == '"' then Escape('"') else if c == BACKSLASH then Escape(BACKSLASH) else if c == NEWLINE then Escape('n') else Plain(c)
  }

  function SpellPiece(p: Piece): string {
    match p case Plain(c) => [c] case Escape(letter) => [BACKSLASH, letter]
  }

  function SpellChars(s: string): string {
    if s == "" then "" else SpellPiece(PieceOf(s[0])) + SpellChars(s[1..])
  }

  function PiecesOf(s: string): (p: seq<Piece>)
    ensures MeaningOf(p, StringConstant) == s
  {
    if s == "" then [] else
    var p := [PieceOf(s[0])] + PiecesOf(s[1..]);
    assert p[1..] == PiecesOf(s[1..]);
    p
  }

  /** The strings in quotes, with the gaps between them. */
  function SpellAll(strings: seq<string>, gaps: seq<string>): string
    requires |gaps| == |strings| - 1
  {
    Quoted(strings[0]) + if |strings| == 1 then "" else gaps[0] + SpellAll(strings[1..], gaps[1..])
  }

  function Joined(strings: seq<string>): string {
    if strings == [] then "" else strings[0] + Joined(strings[1..])
  }

  predicate AllSpace(s: string) {
    forall i :: 0 <= i < |s| ==> IsSpace(s[i])
  }

  /** No literal begins in what follows. */
  predicate EndsLiterals(after: string) {
    SkipSpaces(after, 0) == |after| || after[SkipSpaces(after, 0)] != '"'
  }

  lemma {:induction false} CharsStand(before: string, s: string, after: string)
    ensures PiecesAt(before + SpellChars(s) + after, |before|, PiecesOf(s), |before| + |SpellChars(s)|, StringConstant)
    decreases |s|
  {
    if s != "" {
      hide PieceOf, SpellPiece, PieceAt, SpellChars, PiecesOf, PiecesAt;
      var p, rest := PieceOf(s[0]), SpellChars(s[1..]);
      CharsParts(s);
      CharsStand(before + SpellPiece(p), s[1..], after);
      var text := before + SpellChars(s) + after;
      Regrouped(before, SpellPiece(p), rest, after);
      PieceStands(before, p, rest + after);
      PieceWidth(p);
      PiecesCons(text, |before|, p, PiecesOf(s[1..]), |before| + |SpellChars(s)|);
    }
  }

  lemma Regrouped(a: string, b: string, c: string, d: string)
    ensures a + b + c + d == a + (b + c) + d == a + b + (c + d)
  {
  }

  lemma CharsParts(s: string)
    requires s != ""
    ensures SpellChars(s) == SpellPiece(PieceOf(s[0])) + SpellChars(s[1..])
    ensures PiecesOf(s) == [PieceOf(s[0])] + PiecesOf(s[1..])
  {
  }

  lemma PiecesCons(text: string, i: nat, p: Piece, rest: seq<Piece>, j: nat)
    requires PieceAt(text, i, p, StringConstant) && PiecesAt(text, i + Width(p), rest, j, StringConstant)
    ensures PiecesAt(text, i, [p] + rest, j, StringConstant)
  {
    assert ([p] + rest)[1..] == rest;
  }

  lemma PieceWidth(p: Piece)
    ensures |SpellPiece(p)| == Width(p)
  {
  }

  lemma PieceStands(before: string, p: Piece, after: string)
    requires ValidPiece(p, StringConstant)
    ensures PieceAt(before + SpellPiece(p) + after, |before|, p, StringConstant)
  {
    var text := before + SpellPiece(p) + after;
    assert text[|before|] == SpellPiece(p)[0];
    assert p.Escape? ==> text[|before| + 1] == SpellPiece(p)[1];
  }

  lemma {:induction false} SkipInside(before: string, after: string, i: nat)
    requires i <= |after|
    ensures SkipSpaces(before + after, |before| + i) == |before| + SkipSpaces(after, i)
    decreases |after| - i
  {
    if i < |after| && IsSpace(after[i]) {
      assert (before + after)[|before| + i] == after[i];
      SkipInside(before, after, i + 1);
    }
  }

  lemma {:induction false} StringsStand(before: string, strings: seq<string>, gaps: seq<string>, after: string) returns (l: Literals)
    requires strings != [] && |gaps| == |strings| - 1
    requires (forall i :: 0 <= i < |gaps| ==> AllSpace(gaps[i])) && EndsLiterals(after)
    ensures var spelled := SpellAll(strings, gaps);
            |spelled| > 0 && Reads(before + spelled + after, |before| + 1, l, |before| + |spelled| - 1, StringConstant)
    ensures MeaningOfAll(l, StringConstant) == Joined(strings)
    decreases |strings|
  {
    hide SpellAll, Quoted, PiecesOf, PiecesAt, AllSpace, EndsLiterals, Reads, MeaningOf;
    SpellParts(strings, gaps);
    var pieces := PiecesOf(strings[0]);
    QuotesCount(strings[0]);
    if |strings| == 1 {
      LastStands(before, strings[0], after);
      l := Last(pieces);
      assert strings[1..] == [];
    } else {
      var tail := SpellAll(strings[1..], gaps[1..]);
      var front := before + Quoted(strings[0]) + gaps[0];
      var others := StringsStand(front, strings[1..], gaps[1..], after);
      StartsWithQuote(strings[1..], gaps[1..]);
      MoreStand(before, strings[0], gaps[0], tail + after);
      var text := before + SpellAll(strings, gaps) + after;
      assert front + (tail + after) == text;
      assert front + tail + after == text;
      l := More(pieces, |before| + |Quoted(strings[0])| - 1, |front|, others);
      ReadsMore(text, |before| + 1, l, |front| + |tail| - 1);
    }
  }

  lemma SpellParts(strings: seq<string>, gaps: seq<string>)
    requires strings != [] && |gaps| == |strings| - 1
    ensures |strings| == 1 ==> SpellAll(strings, gaps) == Quoted(strings[0])
    ensures |strings| > 1 ==> SpellAll(strings, gaps) == Quoted(strings[0]) + (gaps[0] + SpellAll(strings[1..], gaps[1..]))
  {
  }

  lemma ReadsMore(text: string, i: nat, l: Literals, last: nat)
    requires l.More? && l.close < l.open < |text| && PiecesAt(text, i, l.pieces, l.close, StringConstant)
    requires text[l.close] == text[l.open] == '"' && forall k :: l.close < k < l.open ==> IsSpace(text[k])
    requires Reads(text, l.open + 1, l.others, last, StringConstant)
    ensures Reads(text, i, l, last, StringConstant)
  {
  }

  function Quoted(s: string): string {
    "\"" + SpellChars(s) + "\""
  }

  lemma StartsWithQuote(strings: seq<string>, gaps: seq<string>)
    requires strings != [] && |gaps| == |strings| - 1
    ensures var spelled := SpellAll(strings, gaps); spelled != "" && spelled[0] == '"'
  {
  }

  /** One literal, and no more behind it. */
  lemma LastStands(before: string, s: string, after: string)
    requires EndsLiterals(after)
    ensures Reads(before + Quoted(s) + after, |before| + 1, Last(PiecesOf(s)), |before| + |Quoted(s)| - 1, StringConstant)
  {
    hide Reads, SpellChars, PiecesAt, Continues, EndsLiterals, Quoted, PiecesOf;
    QuotesCount(s);
    QuotedStands(before, s, after);
    NotContinued(before + Quoted(s), after);
    ReadsLast(before + Quoted(s) + after, |before| + 1, PiecesOf(s), |before| + |Quoted(s)| - 1);
  }

  lemma ReadsLast(text: string, i: nat, pieces: seq<Piece>, last: nat)
    requires last < |text| && PiecesAt(text, i, pieces, last, StringConstant) && text[last] == '"' && !Continues(text, last, StringConstant)
    ensures Reads(text, i, Last(pieces), last, StringConstant)
  {
  }

  lemma QuotesCount(s: string)
    ensures |Quoted(s)| > 0
  {
  }

  lemma NotContinued(front: string, after: string)
    requires EndsLiterals(after) && front != ""
    ensures !Continues(front + after, |front| - 1, StringConstant)
  {
    SkipInside(front, after, 0);
    var k := SkipSpaces(after, 0);
    if k < |after| {
      assert (front + after)[|front| + k] == after[k];
    }
  }

  lemma QuotedStands(before: string, s: string, after: string)
    ensures var text, close := before + Quoted(s) + after, |before| + |Quoted(s)| - 1;
            close < |text| && text[close] == '"' && PiecesAt(text, |before| + 1, PiecesOf(s), close, StringConstant)
  {
    hide PiecesAt;
    CharsStand(before + "\"", s, "\"" + after);
    assert before + "\"" + SpellChars(s) + ("\"" + after) == before + Quoted(s) + after;
  }

  /** One literal, a gap and the quote of the next one. */
  lemma MoreStand(before: string, s: string, gap: string, after: string)
    requires AllSpace(gap) && after != "" && after[0] == '"'
    ensures var text, close, open := before + Quoted(s) + gap + after, |before| + |Quoted(s)| - 1, |before| + |Quoted(s)| + |gap|;
            && close < open < |text| && text[close] == text[open] == '"' && (forall k :: close < k < open ==> IsSpace(text[k]))
            && PiecesAt(text, |before| + 1, PiecesOf(s), close, StringConstant)
  {
    hide PiecesAt, IsSpace;
    var text := before + Quoted(s) + gap + after;
    QuotedStands(before, s, gap + after);
    assert before + Quoted(s) + (gap + after) == text;
    var close := |before| + |Quoted(s)| - 1;
    forall k | close < k < close + 1 + |gap| ensures IsSpace(text[k]) {
      assert text[k] == gap[k - close - 1];
    }
  }

  /** Strings that are escaped, quoted and separated by spaces become one token with
      their concatenation as its value, and the cursor stands on the last quote. */
  lemma StringsRoundTrip(behind: char, before: string, strings: seq<string>, gaps: seq<string>, after: string)
    requires strings != [] && |gaps| == |strings| - 1
    requires (forall i :: 0 <= i < |gaps| ==> AllSpace(gaps[i])) && EndsLiterals(after)
    ensures var spelled := SpellAll(strings, gaps);
            |spelled| > 0 && Lex(before + spelled + after, behind, |before|, StringConstant) == Ok(Lexed(Joined(strings), |before| + |spelled| - 1))
  {
    hide Reads, SpellAll, MeaningOfAll, EndsLiterals, AllSpace;
    var l := StringsStand(before, strings, gaps, after);
    var spelled := SpellAll(strings, gaps);
    LexExactly(before + spelled + after, behind, |before|, l, |before| + |spelled| - 1, StringConstant);
  }

  // ------------------------------------------------------------- the moving cursor

  class Lexer {
    const text: string
    const behind: char
    var pos: nat

    constructor (text: string, behind: char, pos: nat)
      ensures this.text == text && this.behind == behind && this.pos == pos
    {
      this.text, this.behind, this.pos := text, behind, pos;
    }

    /** How far away the next character is that is no space. */
    method Peek() returns (i: nat)
      requires pos < |text|
      ensures pos + i == SkipSpaces(text, pos + 1)
    {
      i := 1;
      while pos + i < |text| && IsSpace(text[pos + i])
        invariant 1 <= i <= |text| - pos && SkipSpaces(text, pos + 1) == SkipSpaces(text, pos + i)
      {
        i := i + 1;
      }
    }

    /** Moves to the last closing quote; the size of the span is counted on the way.
        The byte behind the input is looked at only where the specification says so. */
    method ScanSpan(kind: Kind) returns (r: Result<bool>, size: nat, ghost looked: bool)
      requires pos <= |text|
      modifies this
      ensures looked == LooksBehind(text, old(pos), kind)
      ensures match Scan(text, behind, old(pos), kind, true)
              case Ok(span) => r == Ok(!span.plain) && pos == span.last && size == pos - old(pos)
              case Err(e) => r == Err(e)
              case Overrun => r == Overrun
    {
      hide SkipSpaces, MapEscape, IsSpace;
      ghost var start := pos;
      size, looked := 0, false;
      var done, deepcopy := false, false;
      while !done
        invariant start <= pos <= |text| && size == pos - start
        invariant !looked && LooksBehind(text, start, kind) == (!done && LooksBehind(text, pos, kind))
        invariant Scan(text, behind, start, kind, true) == if done then Ok(Span(pos, !deepcopy)) else Scan(text, behind, pos, kind, !deepcopy)
        decreases |text| - pos, !done
      {
        if pos == |text| {
          return Err(ExpectMore), size, looked;
        }
        if text[pos] == kind.Delimiter() {
          done := true;
          var i := Peek();
          if pos + i < |text| && text[pos + i] == kind.Delimiter() {
            deepcopy := true;
            done := false;
            i := i + 1;
            pos := pos + i;
            size := size + i;
          }
          continue;
        }
        if text[pos] == NEWLINE {
          return Err(InvalidNewline), size, looked;
        }
        if text[pos] == BACKSLASH {
          deepcopy := true;
          pos := pos + 1;
          size := size + 1;
          looked := pos == |text|;
          if MapEscape(ByteAt(text, behind, pos)).None? {
            return Err(EscapeInvalid), size, looked;
          }
          if pos == |text| {
            return Overrun, size, looked;
          }
        }
        pos := pos + 1;
        size := size + 1;
      }
      return Ok(deepcopy), size, looked;
    }

    /** From an opening quote to the last closing one. */
    method LexOneStrlike(kind: Kind) returns (r: Result<string>)
      requires pos < |text| && text[pos] == kind.Delimiter()
      modifies this
      ensures match Lex(text, behind, old(pos), kind)
              case Ok(lexed) => r == Ok(lexed.value) && pos == lexed.last
              case Err(e) => r == Err(e)
              case Overrun => r == Overrun
    {
      hide Scan, Decode, Reads, SkipSpaces, MeaningOfAll;
      pos := pos + 1;
      var start := pos;
      var deepcopy, size, looked := ScanSpan(kind);
      if deepcopy.Err? {
        return Err(deepcopy.error);
      }
      if deepcopy.Overrun? {
        return Overrun;
      }
      var value := text[start..start + size];
      if deepcopy.value {
        ghost var l := ScannedReads(text, behind, start, kind, true);
        DecodeReads(text, start, l, pos, kind);
        value := MapSpanToStrlike(text, start, size, kind);
      }
      if kind.CharConstant? && value == "" {
        return Err(InvalidEmpty);
      }
      if kind.CharConstant? && |value| > 1 {
        return Err(InvalidMultichar);
      }
      return Ok(value);
    }
  }

  /** Copies a span without its quotes, gaps and backslashes; the assertions about
      the span's form never fail. */
  method MapSpanToStrlike(text: string, start: nat, size: nat, kind: Kind) returns (value: string)
    requires start + size <= |text| && Decode(text, start, start + size, kind, Inside).Some?
    ensures Decode(text, start, start + size, kind, Inside) == Some(value)
  {
    var out := new char[size];
    var n, escaped, between := 0, false, false;
    ghost var last := start + size;
    AfterNothing(Decode(text, start, last, kind, Inside));
    for i := 0 to size
      invariant n <= i && !(escaped && between)
      invariant Decode(text, start, last, kind, Inside) == AfterChars(out[..n], Decode(text, start + i, last, kind, ModeOf(escaped, between)))
    {
      var c := text[start + i];
      if between {
        if c == kind.Delimiter() {
          between := false;
        } else {
          assert IsSpace(c);
        }
        continue;
      }
      if escaped {
        escaped := false;
        c := MapEscape(c).value;
      } else if c == kind.Delimiter() {
        between := true;
        continue;
      } else if c == BACKSLASH {
        escaped := true;
        continue;
      }
      ghost var before := out[..n];
      out[n] := c;
      n := n + 1;
      assert out[..n] == before + [c];
      AfterOneMore(before, c, Decode(text, start + i + 1, last, kind, Inside));
    }
    assert !escaped && !between;
    value := out[..n];
    assert value + "" == value;
  }

  function ModeOf(escaped: bool, between: bool): Mode {
    if between then Between else if escaped then Escaped else Inside
  }

  function AfterChars(before: string, r: Option<string>): Option<string> {
    if r.None? then None else Some(before + r.value)
  }

  lemma AfterNothing(r: Option<string>)
    ensures AfterChars("", r) == r
  {
    if r.Some? {
      assert "" + r.value == r.value;
    }
  }

  lemma AfterOneMore(before: string, c: char, r: Option<string>)
    ensures AfterChars(before + [c], r) == AfterChars(before, if r.None? then None else Some([c] + r.value))
  {
    if r.Some? {
      assert before + [c] + r.value == before + ([c] + r.value);
    }
  }
}
