// The ordered part list sent to the grading model (services/geminiService.ts,
// the `parts` array and `addFiles`): the fixed examiner instruction, then one
// label part and one inline-data part per page that parses, grouped as
// question paper, answer key, student sheets.
module Request {
  import opened Types
  import opened DataUrl

  /** A request part. `Instruction` stands for the fixed examiner instruction
      text, whose wording is data and not modelled. */
  datatype Part = Instruction | Text(text: string) | Inline(payload: InlineData)

  const QuestionPaperLabel: string := "Question Paper"
  const AnswerKeyLabel: string := "Expert Answer Key"
  const StudentSheetLabel: string := "Student Handwritten Answer Sheet"

  function DigitChar(d: nat): char
    requires d < 10
  {
    ('0' as int + d) as char
  }

  function DigitValue(c: char): nat {
    if '0' <= c <= '9' then (c as int - '0' as int) as nat else 0
  }

  /** The decimal numeral JavaScript prints for a non-negative integer: digits
      only, and no leading zero except for zero itself, which prints as "0". */
  function Decimal(n: nat): (s: string)
    ensures |s| >= 1
    ensures forall k :: 0 <= k < |s| ==> '0' <= s[k] <= '9'
    ensures s[0] == '0' <==> n == 0
    ensures n == 0 ==> s == "0"
  {
    if n < 10 then [DigitChar(n)] else Decimal(n / 10) + [DigitChar(n % 10)]
  }

  /** The number a string of decimal digits denotes. */
  function DecimalValue(s: string): nat {
    if |s| == 0 then 0 else DecimalValue(s[..|s| - 1]) * 10 + DigitValue(s[|s| - 1])
  }

  /** The numeral reads back as the number it was printed from, so distinct
      page numbers give distinct labels. */
  lemma {:induction false} DecimalRoundTrip(n: nat)
    ensures DecimalValue(Decimal(n)) == n
  {
    if n >= 10 {
      DecimalRoundTrip(n / 10);
      var s := Decimal(n);
      assert s[..|s| - 1] == Decimal(n / 10);
      assert DigitValue(s[|s| - 1]) == n % 10;
      assert DecimalValue(s) == (n / 10) * 10 + n % 10;
    }
  }

  /** The label part text `DOCUMENT: <label> (Page <page>)`. */
  function PageLabel(tag: string, page: nat): string {
    "DOCUMENT: " + tag + " (Page " + Decimal(page) + ")"
  }

  /** What the page at index `i` of a group contributes: its label and its
      payload when its data URL parses, nothing otherwise. */
  function PageParts(url: string, tag: string, i: nat): seq<Part> {
    match ParseDataUrl(url)
    case None => []
    case Some(payload) => [Text(PageLabel(tag, i + 1)), Inline(payload)]
  }

  /** The parts the first `n` pages of a group contribute, in page order. */
  function GroupParts(urls: seq<string>, tag: string, n: nat): seq<Part>
    requires n <= |urls|
  {
    if n == 0 then [] else GroupParts(urls, tag, n - 1) + PageParts(urls[n - 1], tag, n - 1)
  }

  /** How many of the first `n` pages parse. */
  function Parseable(urls: seq<string>, n: nat): nat
    requires n <= |urls|
  {
    if n == 0 then 0
    else Parseable(urls, n - 1) + (if ParseDataUrl(urls[n - 1]).Some? then 1 else 0)
  }

  /** The whole request: the instruction, then the three groups in order. */
  function RequestParts(qp: seq<string>, key: seq<string>, student: seq<string>): seq<Part> {
    [Instruction]
      + GroupParts(qp, QuestionPaperLabel, |qp|)
      + GroupParts(key, AnswerKeyLabel, |key|)
      + GroupParts(student, StudentSheetLabel, |student|)
  }

  /** Each page that parses contributes two parts and every other page none. */
  lemma {:induction false} GroupPartsLength(urls: seq<string>, tag: string, n: nat)
    requires n <= |urls|
    ensures |GroupParts(urls, tag, n)| == 2 * Parseable(urls, n)
  {
    if n > 0 {
      GroupPartsLength(urls, tag, n - 1);
    }
  }

  /** A group never holds the instruction part. */
  lemma {:induction false} GroupPartsNoInstruction(urls: seq<string>, tag: string, n: nat)
    requires n <= |urls|
    ensures Instruction !in GroupParts(urls, tag, n)
  {
    if n > 0 {
      GroupPartsNoInstruction(urls, tag, n - 1);
    }
  }

  /** The page at original index `i`, when it parses, sits at position
      `2 * (pages before it that parse)`: its label carrying page number
      `i + 1`, immediately followed by its payload. Skipped pages leave gaps
      in the page numbers, not in the positions. */
  lemma {:induction false} GroupPartsAt(urls: seq<string>, tag: string, n: nat, i: nat)
    requires i < n <= |urls|
    requires ParseDataUrl(urls[i]).Some?
    ensures var g := GroupParts(urls, tag, n);
      var p := 2 * Parseable(urls, i);
      p + 1 < |g| &&
      g[p] == Text(PageLabel(tag, i + 1)) &&
      g[p + 1] == Inline(ParseDataUrl(urls[i]).value)
  {
    var prev := GroupParts(urls, tag, n - 1);
    var last := PageParts(urls[n - 1], tag, n - 1);
    var p := 2 * Parseable(urls, i);
    assert GroupParts(urls, tag, n) == prev + last;
    GroupPartsLength(urls, tag, n - 1);
    if i < n - 1 {
      GroupPartsAt(urls, tag, n - 1, i);
      ParseableMonotone(urls, i + 1, n - 1);
      assert p + 1 < |prev|;
    } else {
      assert |prev| == p;
      assert last == [Text(PageLabel(tag, i + 1)), Inline(ParseDataUrl(urls[i]).value)];
    }
  }

  lemma {:induction false} ParseableMonotone(urls: seq<string>, m: nat, n: nat)
    requires m <= n <= |urls|
    ensures Parseable(urls, m) <= Parseable(urls, n)
  {
    if m < n {
      ParseableMonotone(urls, m, n - 1);
    }
  }

  /** The request starts with the one instruction part and holds no other;
      it has `1 + 2 * (pages that parse)` parts; and each group starts right
      after the previous one, question paper first, then the key, then the
      student sheets. */
  lemma RequestLayout(qp: seq<string>, key: seq<string>, student: seq<string>)
    ensures var r := RequestParts(qp, key, student);
      var a := Parseable(qp, |qp|);
      var b := Parseable(key, |key|);
      var c := Parseable(student, |student|);
      && |r| == 1 + 2 * (a + b + c)
      && r[0] == Instruction
      && Instruction !in r[1..]
      && r[1..1 + 2 * a] == GroupParts(qp, QuestionPaperLabel, |qp|)
      && r[1 + 2 * a..1 + 2 * (a + b)] == GroupParts(key, AnswerKeyLabel, |key|)
      && r[1 + 2 * (a + b)..] == GroupParts(student, StudentSheetLabel, |student|)
  {
    var g1 := GroupParts(qp, QuestionPaperLabel, |qp|);
    var g2 := GroupParts(key, AnswerKeyLabel, |key|);
    var g3 := GroupParts(student, StudentSheetLabel, |student|);
    GroupPartsLength(qp, QuestionPaperLabel, |qp|);
    GroupPartsLength(key, AnswerKeyLabel, |key|);
    GroupPartsLength(student, StudentSheetLabel, |student|);
    GroupPartsNoInstruction(qp, QuestionPaperLabel, |qp|);
    GroupPartsNoInstruction(key, AnswerKeyLabel, |key|);
    GroupPartsNoInstruction(student, StudentSheetLabel, |student|);
    Concatenation(g1, g2, g3);
  }

  lemma Concatenation(g1: seq<Part>, g2: seq<Part>, g3: seq<Part>)
    requires Instruction !in g1 && Instruction !in g2 && Instruction !in g3
    ensures var r := [Instruction] + g1 + g2 + g3;
      && r[0] == Instruction
      && r[1..] == g1 + g2 + g3
      && Instruction !in r[1..]
      && r[1..1 + |g1|] == g1
      && r[1 + |g1|..1 + |g1| + |g2|] == g2
      && r[1 + |g1| + |g2|..] == g3
  {
  }

  /** `addFiles`: push, page by page, a label and a payload for every data URL
      that parses. */
  method AddFiles(parts: seq<Part>, urls: seq<string>, tag: string) returns (grown: seq<Part>)
    ensures grown == parts + GroupParts(urls, tag, |urls|)
  {
    grown := parts;
    var i := 0;
    while i < |urls|
      invariant 0 <= i <= |urls|
      invariant grown == parts + GroupParts(urls, tag, i)
    {
      var part := ParseDataUrl(urls[i]);
      if part.Some? {
        grown := grown + [Text(PageLabel(tag, i + 1)), Inline(part.value)];
      }
      i := i + 1;
    }
  }

  /** Builds the request: the instruction part, then the question paper, key
      and student groups. */
  method ComposeRequest(qp: seq<string>, key: seq<string>, student: seq<string>)
    returns (parts: seq<Part>)
    ensures parts == RequestParts(qp, key, student)
  {
    parts := [Instruction];
    parts := AddFiles(parts, qp, QuestionPaperLabel);
    parts := AddFiles(parts, key, AnswerKeyLabel);
    parts := AddFiles(parts, student, StudentSheetLabel);
  }
}
