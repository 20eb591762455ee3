/** Output comparison of app/modules/judge/checker.py: texts are compared without the whitespace
    around them, file against file in chunks of their re-encoded bytes.

    A file that is compared with anything but another file is read in text mode, which turns CR LF
    and lone CR into LF; no other source of text is translated. */
module Checker {
  import opened Bytes
  import opened Utf8
  import opened Wrappers

  type CodePoint = c: int | 0 <= c < 0x11_0000
  type Text = seq<CodePoint>

  const LF: CodePoint := 0x0A
  const CR: CodePoint := 0x0D

  /** What `str.strip` removes: the characters for which `str.isspace` holds. */
  predicate IsSpace(c: CodePoint) {
    || 0x09 <= c <= 0x0D || 0x1C <= c <= 0x20 || c == 0x85 || c == 0xA0 || c == 0x1680
    || 0x2000 <= c <= 0x200A || c == 0x2028 || c == 0x2029 || c == 0x202F || c == 0x205F || c == 0x3000
  }

  /** The table, character by character. */
  lemma {:induction false} SpacesAre(c: CodePoint)
    ensures IsSpace(c) <==>
            c in {0x09, 0x0A, 0x0B, 0x0C, 0x0D, 0x1C, 0x1D, 0x1E, 0x1F, 0x20, 0x85, 0xA0, 0x1680,
                  0x2000, 0x2001, 0x2002, 0x2003, 0x2004, 0x2005, 0x2006, 0x2007, 0x2008, 0x2009, 0x200A,
                  0x2028, 0x2029, 0x202F, 0x205F, 0x3000}
  {
  }

  ghost predicate AllSpace(text: Text) {
    forall i :: 0 <= i < |text| ==> IsSpace(text[i])
  }

  ghost predicate Scalars(text: Text) {
    forall i :: 0 <= i < |text| ==> text[i] < 0xD800 || 0xE000 <= text[i]
  }

  function StripLeft(text: Text): (r: Text)
    ensures Scalars(text) ==> Scalars(r)
  {
    if text != [] && IsSpace(text[0]) then StripLeft(text[1..]) else text
  }

  function StripRight(text: Text): (r: Text)
    ensures Scalars(text) ==> Scalars(r)
  {
    if text != [] && IsSpace(text[|text| - 1]) then StripRight(text[..|text| - 1]) else text
  }

  function Strip(text: Text): (r: Text)
    ensures Scalars(text) ==> Scalars(r)
  {
    StripRight(StripLeft(text))
  }

  /** Nothing is left to strip. */
  ghost predicate Bare(text: Text) {
    text == [] || (!IsSpace(text[0]) && !IsSpace(text[|text| - 1]))
  }

  /** Stripping takes off exactly the surrounding whitespace: what is left starts and ends with
      something else, and only whitespace went. */
  lemma {:induction false} StripIsInner(text: Text) returns (i: nat, j: nat)
    ensures i <= j <= |text| && Strip(text) == text[i..j] && Bare(text[i..j])
    ensures AllSpace(text[..i]) && AllSpace(text[j..])
  {
    i := LeftEdge(text);
    var n := RightEdge(text[i..]);
    j := i + n;
    assert text[i..][..n] == text[i..j] && text[i..][n..] == text[j..];
  }

  lemma {:induction false} LeftEdge(text: Text) returns (i: nat)
    ensures i <= |text| && StripLeft(text) == text[i..] && AllSpace(text[..i])
    ensures i < |text| ==> !IsSpace(text[i])
  {
    i := 0;
    if text != [] && IsSpace(text[0]) {
      var n := LeftEdge(text[1..]);
      i := n + 1;
      assert text[1..][n..] == text[i..] && text[..i] == [text[0]] + text[1..][..n];
    }
  }

  lemma {:induction false} RightEdge(text: Text) returns (j: nat)
    ensures j <= |text| && StripRight(text) == text[..j] && AllSpace(text[j..])
    ensures 0 < j ==> !IsSpace(text[j - 1])
  {
    j := |text|;
    if text != [] && IsSpace(text[|text| - 1]) {
      var init := text[..|text| - 1];
      j := RightEdge(init);
      assert init[..j] == text[..j] && text[j..] == init[j..] + [text[|text| - 1]];
    } else {
      assert text[..j] == text;
    }
  }

  lemma {:induction false} StripLeftSkips(left: Text, text: Text)
    requires AllSpace(left)
    ensures StripLeft(left + text) == StripLeft(text)
  {
    if left == [] {
      assert left + text == text;
    } else {
      assert (left + text)[1..] == left[1..] + text;
      StripLeftSkips(left[1..], text);
    }
  }

  lemma {:induction false} StripRightSkips(text: Text, right: Text)
    requires AllSpace(right)
    ensures StripRight(text + right) == StripRight(text)
  {
    if right == [] {
      assert text + right == text;
    } else {
      var n := |right| - 1;
      assert (text + right)[..|text + right| - 1] == text + right[..n];
      StripRightSkips(text, right[..n]);
    }
  }

  /** There is only one way to take a text apart like that. */
  lemma {:induction false} StripOf(left: Text, core: Text, right: Text)
    requires AllSpace(left) && AllSpace(right) && Bare(core)
    ensures Strip(left + core + right) == core
  {
    assert left + core + right == left + (core + right);
    StripLeftSkips(left, core + right);
    if core == [] {
      assert core + right == right + [];
      StripLeftSkips(right, []);
    } else {
      StripRightSkips(core, right);
    }
  }

  /** Whitespace around a text makes no difference to a comparison. */
  lemma {:induction false} PaddingIgnored(left: Text, text: Text, right: Text)
    requires AllSpace(left) && AllSpace(right)
    ensures Strip(left + text + right) == Strip(text)
  {
    var i, j := StripIsInner(text);
    assert left + text + right == (left + text[..i]) + text[i..j] + (text[j..] + right);
    StripOf(left + text[..i], text[i..j], text[j..] + right);
  }

  // ---- Universal newlines ----

  /** The length of what the text starts with: CR LF counts as one character. */
  function Width(text: Text): (n: nat)
    requires text != []
    ensures 1 <= n <= |text|
  {
    if |text| > 1 && text[0] == CR && text[1] == LF then 2 else 1
  }

  /** CR LF and lone CR become LF. */
  function Universal(text: Text): Text {
    if text == [] then []
    else [if text[0] == CR then LF else text[0]] + Universal(text[Width(text)..])
  }

  /** Texts are translated piece by piece, as long as no CR LF is cut in two. */
  lemma {:induction false} UniversalOfConcat(a: Text, b: Text)
    requires a == [] || b == [] || a[|a| - 1] != CR || b[0] != LF
    ensures Universal(a + b) == Universal(a) + Universal(b)
  {
    if a == [] {
      assert a + b == b;
    } else {
      var n := Width(a);
      assert Width(a + b) == n && (a + b)[n..] == a[n..] + b;
      UniversalOfConcat(a[n..], b);
    }
  }

  /** The pieces: CR LF and lone CR become LF, any other character stays. */
  lemma {:induction false} UniversalOfPiece(c: CodePoint)
    ensures Universal([CR, LF]) == [LF] && Universal([c]) == if c == CR then [LF] else [c]
  {
    assert [CR, LF][2..] == [] && [c][1..] == [];
  }

  lemma {:induction false} UniversalOfSpace(text: Text)
    requires AllSpace(text)
    ensures AllSpace(Universal(text))
  {
    if text != [] {
      UniversalOfSpace(text[Width(text)..]);
    }
  }

  lemma {:induction false} UniversalOfBare(text: Text)
    requires Bare(text)
    ensures Bare(Universal(text))
  {
    if text != [] {
      var n := |text| - 1;
      assert text == text[..n] + [text[n]];
      UniversalOfConcat(text[..n], [text[n]]);
      assert Universal([text[n]]) == [text[n]] + Universal([]);
    }
  }

  lemma {:induction false} UniversalOfParts(left: Text, core: Text, right: Text)
    requires Bare(core) && core != []
    ensures Universal(left + core + right) == Universal(left) + Universal(core) + Universal(right)
  {
    assert core[0] != LF && core[|core| - 1] != CR && (left + core)[|left + core| - 1] != CR;
    UniversalOfConcat(left + core, right);
    UniversalOfConcat(left, core);
  }

  /** CR and LF being whitespace, translating and stripping commute. */
  lemma {:induction false} StripOfUniversal(text: Text)
    ensures Strip(Universal(text)) == Universal(Strip(text))
  {
    var i, j := StripIsInner(text);
    var left, core, right := text[..i], text[i..j], text[j..];
    assert text == left + core + right;
    if core == [] {
      UniversalOfSpace(text);
      StripOf(Universal(text), [], []);
      assert Universal(text) + [] + [] == Universal(text);
    } else {
      UniversalOfParts(left, core, right);
      UniversalOfSpace(left);
      UniversalOfSpace(right);
      UniversalOfBare(core);
      StripOf(Universal(left), Universal(core), Universal(right));
    }
  }

  lemma {:induction false} UniversalChanges(text: Text)
    ensures CR !in Universal(text) && (Universal(text) == text <==> CR !in text)
  {
    UniversalHasNoCr(text);
    if CR !in text {
      UniversalKeeps(text);
    }
  }

  lemma {:induction false} UniversalHasNoCr(text: Text)
    ensures CR !in Universal(text)
  {
    if text != [] {
      UniversalHasNoCr(text[Width(text)..]);
    }
  }

  lemma {:induction false} UniversalKeeps(text: Text)
    requires CR !in text
    ensures Universal(text) == text
  {
    if text != [] {
      UniversalKeeps(text[1..]);
    }
  }

  // ---- Comparing ----

  /** The decoded bytes, ill-formed ones replaced. */
  function FileText(file: seq<Byte>): (text: Text)
    ensures Scalars(text)
  {
    DecodeAll(file)
  }

  function AsScalars(text: Text): seq<Scalar>
    requires Scalars(text)
  {
    text
  }

  function Clamp(i: int, n: nat): nat {
    if i < 0 then 0 else if i > n then n else i
  }

  /** The chunk loop decides whether two byte strings of one length are equal. */
  method SameChunks(a: seq<Byte>, b: seq<Byte>, chunkSize: int) returns (same: bool)
    requires |a| == |b| && chunkSize > 0
    ensures same <==> a == b
  {
    var i := 0;
    while i < |a|
      invariant 0 <= i && a[..Clamp(i, |a|)] == b[..Clamp(i, |a|)]
    {
      var end := Clamp(i + chunkSize, |a|);
      if a[i..end] != b[i..end] {
        return false;
      }
      assert a[..end] == a[..i] + a[i..end] && b[..end] == b[..i] + b[i..end];
      i := i + chunkSize;
    }
    assert a[..|a|] == a && b[..|a|] == b;
    return true;
  }

  /** File against file: whatever the chunk size, equality of the stripped texts. */
  method PathsMatchStripped(fileA: seq<Byte>, fileB: seq<Byte>, chunkSize: int) returns (same: bool)
    requires chunkSize > 0
    ensures same <==> Strip(FileText(fileA)) == Strip(FileText(fileB))
  {
    var textA, textB := Strip(FileText(fileA)), Strip(FileText(fileB));
    if |textA| != |textB| {
      return false;
    }
    EncodingInjective(AsScalars(textA), AsScalars(textB));
    var ba, bb := EncodeAll(AsScalars(textA)), EncodeAll(AsScalars(textB));
    if |ba| != |bb| {
      return false;
    }
    same := SameChunks(ba, bb, chunkSize);
  }

  method CheckOutput(actual: Text, expected: Option<Text>) returns (ok: bool)
    ensures ok <==> expected.None? || Strip(actual) == Strip(expected.value)
  {
    if expected.None? {
      return true;
    }
    ok := Strip(actual) == Strip(expected.value);
  }

  datatype Data = NoData | Raw(bytes: seq<Byte>) | Str(text: Text)

  /** A reference to output data: `file` is the content of its path if that is an existing file. */
  datatype Ref = Ref(file: Option<seq<Byte>>, data: Data)

  /** The text as it was written. */
  function WrittenText(ref: Option<Ref>): Option<Text> {
    match ref
    case None => None
    case Some(Ref(Some(file), _)) => Some(FileText(file))
    case Some(Ref(None, NoData)) => None
    case Some(Ref(None, Raw(bytes))) => Some(FileText(bytes))
    case Some(Ref(None, Str(text))) => Some(text)
  }

  /** The text as `_ref_full_text` returns it: only a file is translated. */
  function FullText(ref: Option<Ref>): Option<Text> {
    match ref
    case Some(Ref(Some(file), _)) => Some(Universal(FileText(file)))
    case _ => WrittenText(ref)
  }

  predicate InFile(ref: Option<Ref>) {
    ref.Some? && ref.value.file.Some?
  }

  ghost predicate Agree(actual: Option<Text>, expected: Option<Text>) {
    expected.None? || Strip(if actual.None? then [] else actual.value) == Strip(expected.value)
  }

  /** When outputs are accepted.  Two files are compared as written, anything else after newline
      translation of the file, if there is one. */
  ghost predicate Matches(actual: Option<Ref>, expected: Option<Ref>) {
    if InFile(actual) && InFile(expected) then Agree(WrittenText(actual), WrittenText(expected))
    else Agree(FullText(actual), FullText(expected))
  }

  /** The text behind a reference: the file's, if there is one, otherwise that of the data. */
  ghost function TextOf(ref: Ref): Text {
    if ref.file.Some? then DecodeAll(ref.file.value)
    else if ref.data.Raw? then DecodeAll(ref.data.bytes)
    else if ref.data.Str? then ref.data.text else []
  }

  /** The same with the newlines of a file translated. */
  ghost function TranslatedText(ref: Ref): Text {
    if ref.file.Some? then Universal(DecodeAll(ref.file.value)) else TextOf(ref)
  }

  /** Nothing is expected: no reference, or one without file and data. */
  ghost predicate NothingExpected(expected: Option<Ref>) {
    expected.None? || (expected.value.file.None? && expected.value.data.NoData?)
  }

  method OutputsMatch(actual: Option<Ref>, expected: Option<Ref>, chunkSize: int) returns (ok: bool)
    requires chunkSize > 0
    ensures ok <==> Matches(actual, expected)
    ensures NothingExpected(expected) ==> ok
    ensures !NothingExpected(expected) && actual.None? ==> (ok <==> Strip(TranslatedText(expected.value)) == [])
    ensures !NothingExpected(expected) && actual.Some? && actual.value.file.Some? && expected.value.file.Some? ==>
              (ok <==> Strip(TextOf(actual.value)) == Strip(TextOf(expected.value)))
    ensures !NothingExpected(expected) && actual.Some? && (actual.value.file.None? || expected.value.file.None?) ==>
              (ok <==> Strip(TranslatedText(actual.value)) == Strip(TranslatedText(expected.value)))
  {
    if expected.None? {
      return true;
    }
    if actual.Some? && actual.value.file.Some? && expected.value.file.Some? {
      ok := PathsMatchStripped(actual.value.file.value, expected.value.file.value, chunkSize);
      return;
    }
    var expectedText := FullText(expected);
    if expectedText.None? {
      return true;
    }
    var actualText := FullText(actual);
    ok := CheckOutput(if actualText.None? then [] else actualText.value, expectedText);
  }

  // ---- Where the data lies ----

  /** No CR is left in the file after stripping. */
  ghost predicate PlainNewlines(ref: Option<Ref>) {
    InFile(ref) ==> CR !in Strip(FileText(ref.value.file.value))
  }

  lemma {:induction false} PlainTextIsFullText(ref: Option<Ref>)
    requires PlainNewlines(ref) && WrittenText(ref).Some?
    ensures FullText(ref).Some? && Strip(FullText(ref).value) == Strip(WrittenText(ref).value)
  {
    StripOfUniversal(WrittenText(ref).value);
    UniversalChanges(Strip(WrittenText(ref).value));
  }

  /** Two files agree exactly if their texts do, and so do any other two outputs whose files have
      plain newlines: then it does not matter where the data lies. */
  lemma {:induction false} LocationDoesNotMatter(actual: Option<Ref>, expected: Option<Ref>)
    requires (InFile(actual) && InFile(expected)) || (PlainNewlines(actual) && PlainNewlines(expected))
    ensures Matches(actual, expected) <==> Agree(WrittenText(actual), WrittenText(expected))
  {
    if WrittenText(expected).Some? && !(InFile(actual) && InFile(expected)) {
      PlainTextIsFullText(expected);
      if WrittenText(actual).Some? {
        PlainTextIsFullText(actual);
      }
    }
  }

  function File(file: seq<Byte>): Option<Ref> {
    Some(Ref(Some(file), NoData))
  }

  function Memory(text: Text): Option<Ref> {
    Some(Ref(None, Str(text)))
  }

  /** Otherwise it does: a file is compared with every text in memory as it was written, in either
      role, exactly when no CR is left in it after stripping. */
  lemma {:induction false} LocationMatters(file: seq<Byte>)
    ensures CR !in Strip(FileText(file)) <==>
            forall t: Text :: Matches(File(file), Memory(t)) <==> Agree(WrittenText(File(file)), Some(t))
    ensures CR !in Strip(FileText(file)) <==>
            forall t: Text :: Matches(Memory(t), File(file)) <==> Agree(Some(t), WrittenText(File(file)))
  {
    var text := FileText(file);
    StripOfUniversal(text);
    UniversalChanges(Strip(text));
    if CR in Strip(text) {
      assert !(Matches(File(file), Memory(text)) <==> Agree(WrittenText(File(file)), Some(text)));
      assert !(Matches(Memory(text), File(file)) <==> Agree(Some(text), WrittenText(File(file))));
    }
  }

  /** So a file may fail to match its own bytes, and match others. */
  lemma {:induction false} FileAgainstItsBytes(file: seq<Byte>)
    ensures Matches(File(file), Some(Ref(None, Raw(file)))) <==> CR !in Strip(FileText(file))
    ensures Matches(Memory(Universal(FileText(file))), File(file))
  {
    StripOfUniversal(FileText(file));
    UniversalChanges(Strip(FileText(file)));
  }

  lemma {:induction false} BareIsStripped(text: Text)
    requires Bare(text)
    ensures Strip(text) == text
  {
  }

  /** For instance: 1 CR LF 2 in a file does not match the same in memory, but 1 LF 2. */
  lemma {:induction false} CarriageReturnInput(file: seq<Byte>, text: Text, other: Text)
    requires file == [0x31, 0x0D, 0x0A, 0x32] && text == [0x31, CR, LF, 0x32] && other == [0x31, LF, 0x32]
    ensures FileText(file) == text && text != other
    ensures !Matches(File(file), Memory(text)) && Matches(Memory(other), File(file))
  {
    assert |text| != |other|;
    InputTexts(file, text, other);
    assert FullText(File(file)) == Some(other);
    BareIsStripped(text);
    BareIsStripped(other);
  }

  lemma {:induction false} InputTexts(file: seq<Byte>, text: Text, other: Text)
    requires file == [0x31, 0x0D, 0x0A, 0x32] && text == [0x31, CR, LF, 0x32] && other == [0x31, LF, 0x32]
    ensures FileText(file) == text && Universal(text) == other
  {
    DecodeAscii(file);
    assert text == [0x31] + [CR, LF, 0x32];
    UniversalOfConcat([0x31], [CR, LF, 0x32]);
    assert [CR, LF, 0x32][2..] == [0x32] && [0x31][1..] == [] && [0x32][1..] == [];
  }
}
