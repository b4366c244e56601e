/** Memory identifiers: escaping, rendering, parsing and derivation of `src/core/memory_id.rs`. */
module MemoryIds {
  import opened Wrappers

  const SEPARATOR := "::"
  const U32_LIMIT: nat := 0x1_0000_0000

  type U32 = n: nat | n < U32_LIMIT

  datatype Tag = Chunk(value: U32) | Companion(text: string) | Card(text: string) | SyntheticQuery | Named(text: string)

  datatype Error = Empty | InvalidEscape | InvalidTurn

  datatype MemoryId = MemoryId(entity: string, session: string, turn: U32, tags: seq<Tag>, rendered: string,
        structured: bool)

  datatype Parsed = Good(id: MemoryId) | Bad(error: Error)

  // ----- Numbers -----

  function Digit(n: nat): (c: char)
    requires n < 10
    ensures '0' <= c <= '9' && DigitValue(c) == n
  {
    '0' + n as char
  }

  predicate IsDigit(c: char) {
    '0' <= c <= '9'
  }

  predicate AllDigits(s: string) {
    forall i :: 0 <= i < |s| ==> IsDigit(s[i])
  }

  function DigitValue(c: char): nat {
    if IsDigit(c) then (c - '0') as nat else 0
  }

  function Decimal(n: nat): (s: string)
    ensures s != "" && AllDigits(s)
  {
    if n < 10 then [Digit(n)] else Decimal(n / 10) + [Digit(n % 10)]
  }

  function DigitsValue(s: string): nat {
    if s == "" then 0 else 10 * DigitsValue(s[..|s| - 1]) + DigitValue(s[|s| - 1])
  }

  /** `str::parse::<u32>`: digits after an optional plus sign, in range. */
  function ParseU32(s: string): Option<U32> {
    var digits := if s != "" && s[0] == '+' then s[1..] else s;
    if digits == "" || !AllDigits(digits) then None
    else if DigitsValue(digits) >= U32_LIMIT then None
    else Some(DigitsValue(digits))
  }

  lemma {:induction false} DecimalValue(n: nat)
    ensures DigitsValue(Decimal(n)) == n
  {
    if n >= 10 {
      DecimalValue(n / 10);
      assert Decimal(n)[..|Decimal(n)| - 1] == Decimal(n / 10);
    }
  }

  lemma DecimalParses(n: U32)
    ensures ParseU32(Decimal(n)) == Some(n)
  {
    DecimalValue(n);
    assert IsDigit(Decimal(n)[0]);
  }

  // ----- Tags -----

  predicate StartsWith(s: string, prefix: string) {
    prefix <= s
  }

  predicate IsChunkText(s: string) {
    s != "" && s[0] == 'c' && ParseU32(s[1..]).Some?
  }

  predicate IsCompanionText(s: string) {
    s == "gist" || s == "kw" || s == "event" || StartsWith(s, "rel") || StartsWith(s, "fact")
  }

  function FromComponent(s: string): Tag {
    if s == "sq" then SyntheticQuery
    else if IsChunkText(s) then Chunk(ParseU32(s[1..]).value)
    else if StartsWith(s, "card") then Card(s)
    else if IsCompanionText(s) then Companion(s)
    else Named(s)
  }

  function Component(t: Tag): string {
    match t
    case Chunk(value) => "c" + Decimal(value)
    case Companion(text) => text
    case Card(text) => text
    case Named(text) => text
    case SyntheticQuery => "sq"
  }

  /** The tag is of the kind its own text would be read as. */
  predicate Canonical(t: Tag) {
    match t
    case Chunk(_) => true
    case SyntheticQuery => true
    case Card(text) => StartsWith(text, "card")
    case Companion(text) => IsCompanionText(text)
    case Named(text) => text != "sq" && !IsChunkText(text) && !StartsWith(text, "card") && !IsCompanionText(text)
  }

  lemma ChunkReads(n: U32)
    ensures FromComponent("c" + Decimal(n)) == Chunk(n)
  {
    var s := "c" + Decimal(n);
    DecimalParses(n);
    assert s[1..] == Decimal(n);
  }

  lemma NotANumber(s: string)
    requires s != "" && s[0] != '+' && !IsDigit(s[0])
    ensures ParseU32(s).None?
  {}

  lemma FirstOfPrefix(s: string, prefix: string)
    requires StartsWith(s, prefix) && prefix != ""
    ensures s != "" && s[0] == prefix[0]
  {}

  /** Text that begins like a card or a companion is no chunk, and never both. */
  lemma WordsAreNotChunks(s: string)
    requires StartsWith(s, "card") || IsCompanionText(s)
    ensures s != "sq" && !IsChunkText(s)
    ensures IsCompanionText(s) ==> !StartsWith(s, "card")
  {
    if StartsWith(s, "card") {
      FirstOfPrefix(s, "card");
      assert s[1] == "card"[1];
      NotANumber(s[1..]);
    }
    if StartsWith(s, "rel") {
      FirstOfPrefix(s, "rel");
    }
    if StartsWith(s, "fact") {
      FirstOfPrefix(s, "fact");
    }
  }

  /** The kinds of component exclude each other. */
  lemma KindsIff(s: string)
    ensures FromComponent(s) == SyntheticQuery <==> s == "sq"
    ensures FromComponent(s).Chunk? <==> s != "" && s[0] == 'c' && ParseU32(s[1..]).Some?
    ensures FromComponent(s).Card? <==> "card" <= s
    ensures FromComponent(s).Companion? <==> s in {"gist", "kw", "event"} || "rel" <= s || "fact" <= s
    ensures FromComponent(s).Chunk? || Component(FromComponent(s)) == s
  {
    if StartsWith(s, "card") || IsCompanionText(s) {
      WordsAreNotChunks(s);
    }
  }

  /** A tag reads back from its own text exactly when it is canonical. */
  lemma ReadsBackIffCanonical(t: Tag)
    ensures FromComponent(Component(t)) == t <==> Canonical(t)
  {
    match t
    case Chunk(value) => ChunkReads(value);
    case SyntheticQuery =>
    case Card(text) =>
      if StartsWith(text, "card") {
        WordsAreNotChunks(text);
      }
    case Companion(text) =>
      if IsCompanionText(text) {
        WordsAreNotChunks(text);
      }
    case Named(text) =>
  }

  /** Reading a component normalizes it: reading the result's text changes nothing more, whatever the string. */
  lemma NormalizingIsIdempotent(s: string)
    ensures Canonical(FromComponent(s)) && FromComponent(Component(FromComponent(s))) == FromComponent(s)
  {
    ReadsBackIffCanonical(FromComponent(s));
  }

  // ----- Escaping -----

  function Escaped(c: char): string {
    if c == '%' then "%25" else if c == ':' then "%3A" else [c]
  }

  function Escape(s: string): string {
    if s == "" then "" else Escaped(s[0]) + Escape(s[1..])
  }

  function HexDigit(c: char): Option<nat> {
    if '0' <= c <= '9' then Some((c - '0') as nat)
    else if 'a' <= c <= 'f' then Some((c - 'a') as nat + 10)
    else if 'A' <= c <= 'F' then Some((c - 'A') as nat + 10)
    else None
  }

  /** The character a two-digit escape stands for; only `%` and `:` are ever escaped. */
  function Unescaped(high: char, low: char): Option<char> {
    if HexDigit(high).None? || HexDigit(low).None? then None
    else
      var byte := 16 * HexDigit(high).value + HexDigit(low).value;
      if byte == 0x25 then Some('%') else if byte == 0x3A then Some(':') else None
  }

  function Prepend(c: string, rest: Result<string>): Result<string> {
    if rest.Ok? then Ok(c + rest.value) else Err
  }

  function Decode(s: string): Result<string> {
    if s == "" then Ok("")
    else if s[0] != '%' then Prepend([s[0]], Decode(s[1..]))
    else if |s| < 3 || Unescaped(s[1], s[2]).None? then Err
    else Prepend([Unescaped(s[1], s[2]).value], Decode(s[3..]))
  }

  method EscapeComponent(component: string) returns (escaped: string)
    ensures escaped == Escape(component)
  {
    escaped := "";
    var i := 0;
    assert component[0..] == component;
    while i < |component|
      invariant 0 <= i <= |component|
      invariant Escape(component) == escaped + Escape(component[i..])
    {
      EscapeStep(component, i, escaped);
      if component[i] == '%' {
        escaped := escaped + "%25";
      } else if component[i] == ':' {
        escaped := escaped + "%3A";
      } else {
        escaped := escaped + [component[i]];
      }
      i := i + 1;
    }
  }

  lemma EscapeStep(component: string, i: nat, escaped: string)
    requires i < |component|
    ensures escaped + Escape(component[i..]) == (escaped + Escaped(component[i])) + Escape(component[i + 1..])
  {
    assert component[i..][1..] == component[i + 1..];
  }

  lemma PrependTwice(a: string, b: string, rest: Result<string>)
    ensures Prepend(a, Prepend(b, rest)) == Prepend(a + b, rest)
    ensures Prepend("", rest) == rest
  {
    assert rest.Ok? ==> a + (b + rest.value) == (a + b) + rest.value && "" + rest.value == rest.value;
  }

  method DecodeComponent(component: string) returns (decoded: Result<string>)
    ensures decoded == Decode(component)
  {
    var text := "";
    var i := 0;
    assert component[0..] == component;
    PrependTwice("", "", Decode(component));
    while i < |component|
      invariant 0 <= i <= |component|
      invariant Decode(component) == Prepend(text, Decode(component[i..]))
      decreases |component| - i
    {
      ghost var rest := component[i..];
      if component[i] != '%' {
        assert rest[1..] == component[i + 1..];
        PrependTwice(text, [component[i]], Decode(component[i + 1..]));
        text := text + [component[i]];
        i := i + 1;
      } else {
        if i + 2 >= |component| {
          return Err;
        }
        var c := Unescaped(component[i + 1], component[i + 2]);
        assert rest[1] == component[i + 1] && rest[2] == component[i + 2];
        if c.None? {
          return Err;
        }
        assert rest[3..] == component[i + 3..];
        PrependTwice(text, [c.value], Decode(component[i + 3..]));
        text := text + [c.value];
        i := i + 3;
      }
    }
    assert text + "" == text;
    return Ok(text);
  }

  predicate NoColon(s: string) {
    forall i :: 0 <= i < |s| ==> s[i] != ':'
  }

  lemma {:induction false} EscapeHasNoColon(s: string)
    ensures NoColon(Escape(s))
  {
    if s != "" {
      EscapeHasNoColon(s[1..]);
    }
  }

  lemma {:induction false} DecodeEscape(s: string)
    ensures Decode(Escape(s)) == Ok(s)
  {
    if s != "" {
      DecodeEscape(s[1..]);
      var e := Escape(s);
      if s[0] == '%' || s[0] == ':' {
        assert e[0] == '%' && e[1] == Escaped(s[0])[1] && e[2] == Escaped(s[0])[2];
        assert e[3..] == Escape(s[1..]);
      } else {
        assert e[0] == s[0] && e[1..] == Escape(s[1..]);
      }
      assert s == [s[0]] + s[1..];
    }
  }

  // ----- What decodes -----

  /** An escape of `%` or `:` begins at `i`. */
  predicate EscapeAt(s: string, i: nat)
    requires i < |s|
  {
    i + 2 < |s| && s[i..i + 3] in {"%25", "%3A", "%3a"}
  }

  predicate WellEscaped(s: string) {
    forall i :: 0 <= i < |s| && s[i] == '%' ==> EscapeAt(s, i)
  }

  lemma EscapeAtTail(s: string, k: nat, i: nat)
    requires k <= i < |s|
    ensures EscapeAt(s, i) <==> EscapeAt(s[k..], i - k)
  {
    if i + 2 < |s| {
      assert s[i..i + 3] == s[k..][i - k..i - k + 3];
    }
  }

  lemma WellEscapedTail(s: string, k: nat)
    requires k <= |s| && forall i :: 0 <= i < k && s[i] == '%' ==> EscapeAt(s, i)
    ensures WellEscaped(s) <==> WellEscaped(s[k..])
  {
    forall i | k <= i < |s| ensures EscapeAt(s, i) <==> EscapeAt(s[k..], i - k) {
      EscapeAtTail(s, k, i);
    }
    assert forall i :: 0 <= i < |s[k..]| ==> s[k..][i] == s[i + k];
    assert WellEscaped(s) ==> forall i :: 0 <= i < |s[k..]| && s[k..][i] == '%' ==> EscapeAt(s, i + k);
  }

  lemma UnescapedIff(high: char, low: char)
    ensures Unescaped(high, low).Some? <==> ['%', high, low] in {"%25", "%3A", "%3a"}
    ensures Unescaped(high, low) == Some('%') <==> ['%', high, low] == "%25"
  {
    if HexDigit(high).Some? && HexDigit(low).Some? {
      HexDigits(HexDigit(high).value, HexDigit(low).value);
    }
  }

  lemma HexDigits(h: nat, l: nat)
    requires h < 16 && l < 16
    ensures 16 * h + l == 0x25 <==> h == 2 && l == 5
    ensures 16 * h + l == 0x3A <==> h == 3 && l == 10
  {}

  /** Decoding fails exactly when some `%` does not begin an escape of `%` or `:`. */
  lemma {:induction false} DecodesIff(s: string)
    ensures Decode(s).Ok? <==> WellEscaped(s)
    decreases |s|
  {
    if s == "" {
    } else if s[0] != '%' {
      DecodesIff(s[1..]);
      WellEscapedTail(s, 1);
    } else if |s| >= 3 {
      UnescapedIff(s[1], s[2]);
      assert s[0..3] == ['%', s[1], s[2]];
      if Unescaped(s[1], s[2]).Some? {
        DecodesIff(s[3..]);
        WellEscapedTail(s, 3);
      } else {
        assert !EscapeAt(s, 0);
      }
    } else {
      assert !EscapeAt(s, 0);
    }
  }

  /** Texts decode piece by piece. */
  lemma {:induction false} DecodeConcat(a: string, b: string)
    requires Decode(a).Ok?
    ensures Decode(a + b) == Prepend(Decode(a).value, Decode(b))
    decreases |a|
  {
    if a == "" {
      assert a + b == b;
      PrependTwice("", "", Decode(b));
    } else {
      var k := if a[0] == '%' then 3 else 1;
      assert (a + b)[k..] == a[k..] + b;
      DecodeConcat(a[k..], b);
      var head := if a[0] == '%' then [Unescaped(a[1], a[2]).value] else [a[0]];
      PrependTwice(head, Decode(a[k..]).value, Decode(b));
    }
  }

  /** The pieces: any character but `%` for itself, and the escapes. */
  lemma DecodePieces(c: char)
    ensures c != '%' ==> Decode([c]) == Ok([c])
    ensures Decode("%25") == Ok("%") && Decode("%3A") == Ok(":") && Decode("%3a") == Ok(":")
  {
    assert Decode([c][1..]) == Ok("") && [c] + "" == [c];
    EscapedPiece('2', '5', '%');
    EscapedPiece('3', 'A', ':');
    EscapedPiece('3', 'a', ':');
  }

  lemma EscapedPiece(high: char, low: char, c: char)
    requires Unescaped(high, low) == Some(c)
    ensures Decode(['%', high, low]) == Ok([c])
  {
    assert Decode(['%', high, low][3..]) == Ok("") && [c] + "" == [c];
  }

  // ----- Splitting and joining -----

  function Joined(parts: seq<string>): string
    requires parts != []
  {
    if |parts| == 1 then parts[0] else parts[0] + SEPARATOR + Joined(parts[1..])
  }

  predicate HoldsSeparator(s: string) {
    exists i :: 0 <= i < |s| - 1 && s[i] == ':' && s[i + 1] == ':'
  }

  /** The parts joined again are the text, and none of them holds a separator. */
  lemma {:induction false} SplitJoins(s: string)
    ensures Joined(Split(s)) == s && forall i :: 0 <= i < |Split(s)| ==> !HoldsSeparator(Split(s)[i])
    decreases |s|
  {
    if |s| < 2 {
    } else if s[0] == ':' && s[1] == ':' {
      SplitJoins(s[2..]);
      assert Split(s)[1..] == Split(s[2..]);
      assert s == SEPARATOR + s[2..];
    } else {
      SplitJoins(s[1..]);
      LongerFirst(s[0], Split(s[1..]));
      assert s == [s[0]] + s[1..];
      FirstBegins(s[1..]);
    }
  }

  lemma FirstBegins(s: string)
    requires s != ""
    ensures Split(s)[0] != "" ==> Split(s)[0][0] == s[0]
  {}

  lemma LongerFirst(c: char, parts: seq<string>)
    requires parts != []
    ensures Joined([[c] + parts[0]] + parts[1..]) == [c] + Joined(parts)
  {
    var longer := [[c] + parts[0]] + parts[1..];
    assert longer[1..] == parts[1..];
    if |parts| > 1 {
      assert ([c] + parts[0]) + SEPARATOR + Joined(parts[1..]) == [c] + (parts[0] + SEPARATOR + Joined(parts[1..]));
    }
  }

  /** Splits at each `::`, leftmost first, without overlap. */
  function Split(s: string): (parts: seq<string>)
    ensures parts != [] && (s != "" ==> parts != [""])
  {
    if |s| < 2 then [s]
    else if s[0] == ':' && s[1] == ':' then [""] + Split(s[2..])
    else
      var rest := Split(s[1..]);
      [[s[0]] + rest[0]] + rest[1..]
  }

  predicate EndsWithColon(s: string) {
    s != "" && s[|s| - 1] == ':'
  }

  lemma {:induction false} SplitWhole(s: string)
    requires NoColon(s)
    ensures Split(s) == [s]
  {
    if |s| >= 2 {
      SplitWhole(s[1..]);
      assert [s[0]] + s[1..] == s;
    }
  }

  /** Parts after a separator and one more part are appended to the text. A last part that ends in a colon gives that
      colon up to the separator, which is then found one character early. */
  function Appended(parts: seq<string>, part: string): seq<string>
    requires parts != []
  {
    var n := |parts| - 1;
    if EndsWithColon(parts[n]) then parts[..n] + [parts[n][..|parts[n]| - 1], ":" + part] else parts + [part]
  }

  lemma AppendedAfterEmpty(parts: seq<string>, part: string)
    requires parts != []
    ensures Appended([""] + parts, part) == [""] + Appended(parts, part)
  {}

  lemma AppendedAfterChar(c: char, parts: seq<string>, part: string)
    requires parts != [] && parts != [""]
    ensures var all := Appended(parts, part); Appended([[c] + parts[0]] + parts[1..], part) == [[c] + all[0]] + all[1..]
  {
    var longer := [[c] + parts[0]] + parts[1..];
    var all := Appended(parts, part);
    var n := |parts| - 1;
    if n == 0 {
      assert EndsWithColon(longer[0]) <==> EndsWithColon(parts[0]);
      if EndsWithColon(parts[0]) {
        assert longer[0][..|longer[0]| - 1] == [c] + all[0];
      }
    } else {
      assert longer[n] == parts[n];
      assert Appended(longer, part) == [[c] + all[0]] + all[1..];
    }
  }

  lemma {:induction false} SplitAppended(s: string, part: string)
    requires NoColon(part)
    ensures Split(s + SEPARATOR + part) == Appended(Split(s), part)
  {
    var t := s + SEPARATOR + part;
    if |s| < 2 {
      SplitShortAppended(s, part);
    } else if s[0] == ':' && s[1] == ':' {
      assert t[2..] == s[2..] + SEPARATOR + part;
      SplitAppended(s[2..], part);
      AppendedAfterEmpty(Split(s[2..]), part);
    } else {
      assert t[1..] == s[1..] + SEPARATOR + part;
      SplitAppended(s[1..], part);
      AppendedAfterChar(s[0], Split(s[1..]), part);
    }
  }

  lemma SplitShortAppended(s: string, part: string)
    requires NoColon(part) && |s| < 2
    ensures Split(s + SEPARATOR + part) == Appended([s], part)
  {
    if s == "" {
      SeparatorFirst(part);
      assert s + SEPARATOR + part == SEPARATOR + part;
    } else if s[0] == ':' {
      assert s == ":";
      SeparatorAfterColon(part);
      AppendedColon(part);
    } else {
      assert s == [s[0]];
      SeparatorAfterChar(s[0], part);
      AppendedChar(s[0], part);
    }
  }

  lemma AppendedColon(part: string)
    ensures Appended([":"], part) == ["", ":" + part]
  {
    assert ":"[..0] == "";
  }

  lemma AppendedChar(c: char, part: string)
    requires c != ':'
    ensures Appended([[c]], part) == [[c], part]
  {}

  lemma SeparatorAfterColon(part: string)
    requires NoColon(part)
    ensures Split(":" + SEPARATOR + part) == ["", ":" + part]
  {
    assert (":" + SEPARATOR + part)[2..] == ":" + part;
    ColonPart(part);
  }

  lemma SeparatorAfterChar(c: char, part: string)
    requires NoColon(part) && c != ':'
    ensures Split([c] + SEPARATOR + part) == [[c], part]
  {
    SeparatorFirst(part);
    assert ([c] + SEPARATOR + part)[1..] == SEPARATOR + part;
    assert [c] + "" == [c];
  }

  lemma SeparatorFirst(part: string)
    requires NoColon(part)
    ensures Split(SEPARATOR + part) == ["", part]
  {
    SplitWhole(part);
    assert (SEPARATOR + part)[2..] == part;
  }

  lemma ColonPart(part: string)
    requires NoColon(part)
    ensures Split(":" + part) == [":" + part]
  {
    var t := ":" + part;
    if part != "" {
      assert t[1..] == part;
      SplitWhole(part);
    }
  }

  // ----- Identifiers -----

  function RenderStructured(entity: string, session: string, turn: U32, tags: seq<Tag>): string {
    if tags == [] then Escape(entity) + SEPARATOR + Escape(session) + SEPARATOR + Decimal(turn)
    else RenderStructured(entity, session, turn, tags[..|tags| - 1]) + SEPARATOR + Escape(Component(tags[|tags| - 1]))
  }

  method Render(entity: string, session: string, turn: U32, tags: seq<Tag>) returns (rendered: string)
    ensures rendered == RenderStructured(entity, session, turn, tags)
  {
    var first := EscapeComponent(entity);
    var second := EscapeComponent(session);
    rendered := first + SEPARATOR + second + SEPARATOR + Decimal(turn);
    var i := 0;
    while i < |tags|
      invariant 0 <= i <= |tags| && rendered == RenderStructured(entity, session, turn, tags[..i])
    {
      assert tags[..i + 1][..i] == tags[..i];
      var component := EscapeComponent(Component(tags[i]));
      rendered := rendered + SEPARATOR;
      rendered := rendered + component;
      i := i + 1;
    }
    assert tags[..i] == tags;
  }

  function New(entity: string, session: string, turn: U32): MemoryId {
    MemoryId(entity, session, turn, [], RenderStructured(entity, session, turn, []), true)
  }

  function Opaque(value: string): MemoryId {
    MemoryId(value, "", 0, [], value, false)
  }

  /** Appends a tag; an unstructured id keeps only the newest. */
  function Derived(id: MemoryId, tag: Tag): MemoryId {
    var rendered := id.rendered + SEPARATOR + Escape(Component(tag));
    if !id.structured then id.(rendered := rendered, tags := [tag])
    else id.(rendered := rendered, tags := id.tags + [tag])
  }

  function AddTag(tags: Result<seq<Tag>>, text: Result<string>): Result<seq<Tag>> {
    if tags.Ok? && text.Ok? then Ok(tags.value + [FromComponent(text.value)]) else Err
  }

  function DecodeTags(parts: seq<string>): Result<seq<Tag>> {
    if parts == [] then Ok([])
    else
      AddTag(DecodeTags(parts[..|parts| - 1]), Decode(parts[|parts| - 1]))
  }

  function Unstructured(value: string): Parsed {
    if Decode(value).Ok? then Good(MemoryId(Decode(value).value, "", 0, [], value, false)) else Bad(InvalidEscape)
  }

  function Structured(value: string, parts: seq<string>): Parsed
    requires |parts| >= 3
  {
    if Decode(parts[0]) == Err || Decode(parts[1]) == Err then Bad(InvalidEscape)
    else if ParseU32(parts[2]).None? then Bad(InvalidTurn)
    else if DecodeTags(parts[3..]) == Err then Bad(InvalidEscape)
    else
      var entity, session, turn := Decode(parts[0]).value, Decode(parts[1]).value, ParseU32(parts[2]).value;
      Good(MemoryId(entity, session, turn, DecodeTags(parts[3..]).value, value, true))
  }

  /** What a text parses to. */
  function Reading(value: string): Parsed {
    if value == "" then Bad(Empty)
    else if |Split(value)| < 3 then Unstructured(value)
    else Structured(value, Split(value))
  }

  /** A text of fewer than three parts is one name, whatever separators it holds, unless an escape in it is bad. */
  lemma ShortReads(value: string)
    requires value != "" && |Split(value)| < 3
    ensures !WellEscaped(value) ==> Reading(value) == Bad(InvalidEscape)
    ensures WellEscaped(value) ==>
              Decode(value).Ok? && Reading(value) == Good(MemoryId(Decode(value).value, "", 0, [], value, false))
  {
    DecodesIff(value);
  }

  lemma {:induction false} TagsRead(parts: seq<string>)
    ensures DecodeTags(parts).Ok? <==> forall p :: p in parts ==> WellEscaped(p)
    ensures DecodeTags(parts).Ok? ==>
              && |DecodeTags(parts).value| == |parts|
              && forall i :: 0 <= i < |parts| ==>
                   Decode(parts[i]).Ok? && DecodeTags(parts).value[i] == FromComponent(Decode(parts[i]).value)
  {
    if parts != [] {
      var n := |parts| - 1;
      TagsRead(parts[..n]);
      DecodesIff(parts[n]);
      assert parts == parts[..n] + [parts[n]];
    }
  }

  /** A text of three parts or more is read part by part. Its first two parts are checked before the turn, the tags
      after it. */
  lemma LongReads(value: string)
    requires |Split(value)| >= 3
    ensures var parts := Split(value);
            var named := WellEscaped(parts[0]) && WellEscaped(parts[1]);
            var tagged := forall p :: p in parts[3..] ==> WellEscaped(p);
            && (Reading(value) == Bad(InvalidEscape) <==> !named || (ParseU32(parts[2]).Some? && !tagged))
            && (Reading(value) == Bad(InvalidTurn) <==> named && ParseU32(parts[2]).None?)
            && (Reading(value).Good? ==>
                  var id := Reading(value).id;
                  && Decode(parts[0]) == Ok(id.entity) && Decode(parts[1]) == Ok(id.session)
                  && ParseU32(parts[2]) == Some(id.turn) && DecodeTags(parts[3..]) == Ok(id.tags)
                  && id.rendered == value && id.structured)
  {
    var parts := Split(value);
    assert value != "";
    DecodesIff(parts[0]);
    DecodesIff(parts[1]);
    TagsRead(parts[3..]);
  }

  method ParseTags(parts: seq<string>) returns (tags: Result<seq<Tag>>)
    ensures tags == DecodeTags(parts)
  {
    var read: seq<Tag> := [];
    var i := 0;
    while i < |parts|
      invariant 0 <= i <= |parts| && DecodeTags(parts[..i]) == Ok(read)
    {
      assert parts[..i + 1][..i] == parts[..i];
      var text := DecodeComponent(parts[i]);
      if text == Err {
        FailureSticks(parts, i + 1);
        return Err;
      }
      read := read + [FromComponent(text.value)];
      i := i + 1;
    }
    assert parts[..i] == parts;
    return Ok(read);
  }

  lemma {:induction false} FailureSticks(parts: seq<string>, n: nat)
    requires n <= |parts| && DecodeTags(parts[..n]) == Err
    ensures DecodeTags(parts) == Err
  {
    if n == |parts| {
      assert parts[..n] == parts;
    } else {
      var front := parts[..|parts| - 1];
      assert front[..n] == parts[..n];
      FailureSticks(front, n);
    }
  }

  method Parse(value: string) returns (r: Parsed)
    ensures r == Reading(value)
  {
    if value == "" {
      return Bad(Empty);
    }
    var parts := Split(value);
    if |parts| < 3 {
      var whole := DecodeComponent(value);
      return if whole.Ok? then Good(MemoryId(whole.value, "", 0, [], value, false)) else Bad(InvalidEscape);
    }
    var entity := DecodeComponent(parts[0]);
    if entity == Err {
      return Bad(InvalidEscape);
    }
    var session := DecodeComponent(parts[1]);
    if session == Err {
      return Bad(InvalidEscape);
    }
    var turn := ParseU32(parts[2]);
    if turn.None? {
      return Bad(InvalidTurn);
    }
    var tags := ParseTags(parts[3..]);
    if tags == Err {
      return Bad(InvalidEscape);
    }
    return Good(MemoryId(entity.value, session.value, turn.value, tags.value, value, true));
  }

  // ----- Round trips -----

  /** An id built by `new` and repeated `derived`. */
  function Build(entity: string, session: string, turn: U32, tags: seq<Tag>): MemoryId {
    if tags == [] then New(entity, session, turn)
    else Derived(Build(entity, session, turn, tags[..|tags| - 1]), tags[|tags| - 1])
  }

  function Parts(entity: string, session: string, turn: U32, tags: seq<Tag>): seq<string> {
    [Escape(entity), Escape(session), Decimal(turn)] + TagParts(tags)
  }

  function TagParts(tags: seq<Tag>): seq<string> {
    if tags == [] then [] else TagParts(tags[..|tags| - 1]) + [Escape(Component(tags[|tags| - 1]))]
  }

  function Normalized(tags: seq<Tag>): (normal: seq<Tag>)
    ensures |normal| == |tags|
  {
    seq(|tags|, i requires 0 <= i < |tags| => FromComponent(Component(tags[i])))
  }

  lemma {:induction false} BuiltShape(entity: string, session: string, turn: U32, tags: seq<Tag>)
    ensures Build(entity, session, turn, tags) ==
              MemoryId(entity, session, turn, tags, RenderStructured(entity, session, turn, tags), true)
  {
    if tags == [] {
      assert Build(entity, session, turn, tags) == New(entity, session, turn);
    } else {
      var n := |tags| - 1;
      var front, last := tags[..n], tags[n];
      assert tags == front + [last];
      BuiltShape(entity, session, turn, front);
      BuiltNext(entity, session, turn, front, last);
    }
  }

  lemma BuiltNext(entity: string, session: string, turn: U32, front: seq<Tag>, tag: Tag)
    requires Build(entity, session, turn, front) ==
               MemoryId(entity, session, turn, front, RenderStructured(entity, session, turn, front), true)
    ensures var tags := front + [tag];
            Build(entity, session, turn, tags) ==
              MemoryId(entity, session, turn, tags, RenderStructured(entity, session, turn, tags), true)
  {
    assert (front + [tag])[..|front|] == front;
    DerivedShape(Build(entity, session, turn, front), tag);
  }

  lemma DerivedShape(id: MemoryId, tag: Tag)
    requires id.structured
    ensures var rendered := id.rendered + SEPARATOR + Escape(Component(tag));
            Derived(id, tag) == MemoryId(id.entity, id.session, id.turn, id.tags + [tag], rendered, true)
  {}

  lemma HeadSplits(entity: string, session: string, turn: U32)
    ensures Split(Escape(entity) + SEPARATOR + Escape(session) + SEPARATOR + Decimal(turn)) ==
              [Escape(entity), Escape(session), Decimal(turn)]
    ensures NoColon(Escape(entity)) && NoColon(Escape(session)) && NoColon(Decimal(turn))
  {
    EscapeHasNoColon(entity);
    EscapeHasNoColon(session);
    ThreeParts(Escape(entity), Escape(session), Decimal(turn));
  }

  lemma ThreeParts(a: string, b: string, c: string)
    requires NoColon(a) && NoColon(b) && NoColon(c)
    ensures Split(a + SEPARATOR + b + SEPARATOR + c) == [a, b, c]
  {
    SplitWhole(a);
    SplitAppended(a, b);
    SplitAppended(a + SEPARATOR + b, c);
  }

  lemma {:induction false} TagPartsHaveNoColon(tags: seq<Tag>)
    ensures |TagParts(tags)| == |tags| && forall i :: 0 <= i < |tags| ==> NoColon(TagParts(tags)[i])
  {
    if tags != [] {
      TagPartsHaveNoColon(tags[..|tags| - 1]);
      EscapeHasNoColon(Component(tags[|tags| - 1]));
    }
  }

  lemma {:induction false} RenderedSplits(entity: string, session: string, turn: U32, tags: seq<Tag>)
    ensures Split(RenderStructured(entity, session, turn, tags)) == Parts(entity, session, turn, tags)
    ensures RenderStructured(entity, session, turn, tags) != ""
  {
    if tags == [] {
      HeadSplits(entity, session, turn);
    } else {
      var n := |tags| - 1;
      var parts, last := Parts(entity, session, turn, tags[..n]), Escape(Component(tags[n]));
      RenderedSplits(entity, session, turn, tags[..n]);
      EscapeHasNoColon(Component(tags[n]));
      SplitAppended(RenderStructured(entity, session, turn, tags[..n]), last);
      LastHasNoColon(entity, session, turn, tags[..n]);
      assert Parts(entity, session, turn, tags) == parts + [last];
    }
  }

  lemma LastHasNoColon(entity: string, session: string, turn: U32, tags: seq<Tag>)
    ensures var parts := Parts(entity, session, turn, tags); !EndsWithColon(parts[|parts| - 1])
  {
    TagPartsHaveNoColon(tags);
    if tags == [] {
      assert Parts(entity, session, turn, tags)[2] == Decimal(turn);
    }
  }

  lemma {:induction false} TagsDecode(tags: seq<Tag>)
    ensures DecodeTags(TagParts(tags)) == Ok(Normalized(tags))
  {
    if tags != [] {
      var n := |tags| - 1;
      TagsDecode(tags[..n]);
      DecodeEscape(Component(tags[n]));
      OneMoreTag(TagParts(tags[..n]), Escape(Component(tags[n])));
      NormalizedNext(tags);
    }
  }

  lemma NormalizedNext(tags: seq<Tag>)
    requires tags != []
    ensures var n := |tags| - 1; AddTag(Ok(Normalized(tags[..n])), Ok(Component(tags[n]))) == Ok(Normalized(tags))
  {
    var n := |tags| - 1;
    assert Normalized(tags) == Normalized(tags[..n]) + [FromComponent(Component(tags[n]))];
  }

  lemma OneMoreTag(parts: seq<string>, part: string)
    ensures DecodeTags(parts + [part]) == AddTag(DecodeTags(parts), Decode(part))
  {
    assert (parts + [part])[..|parts|] == parts;
  }

  /** Every built id parses, whatever its components contain: entity, session and turn come back, the tags
      normalized, the text as it was. */
  lemma BuiltReads(entity: string, session: string, turn: U32, tags: seq<Tag>)
    ensures var id := Build(entity, session, turn, tags); Reading(id.rendered) == Good(id.(tags := Normalized(tags)))
  {
    BuiltShape(entity, session, turn, tags);
    RenderedSplits(entity, session, turn, tags);
    TagsDecode(tags);
    assert Parts(entity, session, turn, tags)[3..] == TagParts(tags);
    DecodeEscape(entity);
    DecodeEscape(session);
    DecimalParses(turn);
  }

  /** A built id parses back to itself exactly when all its tags are canonical. */
  lemma RoundTripIff(entity: string, session: string, turn: U32, tags: seq<Tag>)
    ensures var id := Build(entity, session, turn, tags);
            Reading(id.rendered) == Good(id) <==> forall i :: 0 <= i < |tags| ==> Canonical(tags[i])
  {
    BuiltReads(entity, session, turn, tags);
    BuiltShape(entity, session, turn, tags);
    forall i | 0 <= i < |tags| ensures Normalized(tags)[i] == tags[i] <==> Canonical(tags[i]) {
      ReadsBackIffCanonical(tags[i]);
    }
    assert Normalized(tags) == tags <==> forall i :: 0 <= i < |tags| ==> Normalized(tags)[i] == tags[i];
  }

  /** The ids of synthetic summaries carry such a tag: `fact` is a companion's text, so it does not come back as a
      name. */
  lemma SyntheticFactDoesNotRoundTrip(entity: string)
    ensures var id := Build(entity, "synthetic", 0, [SyntheticQuery, Named("fact")]);
            Reading(id.rendered) == Good(id.(tags := [SyntheticQuery, Companion("fact")]))
  {
    BuiltReads(entity, "synthetic", 0, [SyntheticQuery, Named("fact")]);
    WordsAreNotChunks("fact");
    assert Normalized([SyntheticQuery, Named("fact")]) == [SyntheticQuery, Companion("fact")];
  }

  /** Rendering is injective up to normalization: equal texts mean equal entities, sessions and turns and tags that
      read alike. */
  lemma RenderingIsInjective(entity: string, session: string, turn: U32, tags: seq<Tag>, entity': string,
        session': string, turn': U32, tags': seq<Tag>)
    requires Build(entity, session, turn, tags).rendered == Build(entity', session', turn', tags').rendered
    ensures entity == entity' && session == session' && turn == turn' && Normalized(tags) == Normalized(tags')
  {
    BuiltReads(entity, session, turn, tags);
    BuiltReads(entity', session', turn', tags');
    BuiltShape(entity, session, turn, tags);
    BuiltShape(entity', session', turn', tags');
  }

  // ----- Unstructured ids -----

  /** A name alone reads back, whatever it is. */
  lemma NameReads(s: string)
    requires s != ""
    ensures Reading(Escape(s)) == Good(MemoryId(s, "", 0, [], Escape(s), false))
  {
    EscapeHasNoColon(s);
    DecodeEscape(s);
    SplitWhole(Escape(s));
    EscapeNotEmpty(s);
  }

  /** Two read as one name with the separator in it. */
  lemma TwoNamesRead(s: string, t: string)
    ensures var two := Escape(s) + SEPARATOR + Escape(t);
            Reading(two) == Good(MemoryId(s + SEPARATOR + t, "", 0, [], two, false))
  {
    EscapeHasNoColon(s);
    EscapeHasNoColon(t);
    SplitWhole(Escape(s));
    SplitAppended(Escape(s), Escape(t));
    TwoNamesDecode(s, t);
  }

  lemma TwoNamesDecode(s: string, t: string)
    ensures Decode(Escape(s) + SEPARATOR + Escape(t)) == Ok(s + SEPARATOR + t)
  {
    DecodeEscape(s);
    DecodeEscape(t);
    SeparatorDecodes();
    DecodeConcat(Escape(s), SEPARATOR);
    DecodeConcat(Escape(s) + SEPARATOR, Escape(t));
  }

  lemma EscapeNotEmpty(s: string)
    requires s != ""
    ensures Escape(s) != ""
  {}

  lemma SeparatorDecodes()
    ensures Decode(SEPARATOR) == Ok(SEPARATOR)
  {
    DecodePieces(':');
    assert SEPARATOR == [':'] + [':'];
    DecodeConcat([':'], [':']);
  }

  /** Deriving from an unstructured id adds to its text and keeps the newest tag only. */
  lemma {:induction false} DerivedKeepsNewest(id: MemoryId, tags: seq<Tag>)
    requires !id.structured && tags != []
    ensures var all := DerivedAll(id, tags);
            all == id.(tags := [tags[|tags| - 1]], rendered := Joined([id.rendered] + TagParts(tags)))
  {
    var n := |tags| - 1;
    if n > 0 { DerivedKeepsNewest(id, tags[..n]); }
    JoinedNext([id.rendered] + TagParts(tags[..n]), Escape(Component(tags[n])));
    assert [id.rendered] + TagParts(tags) == ([id.rendered] + TagParts(tags[..n])) + [Escape(Component(tags[n]))];
  }

  function DerivedAll(id: MemoryId, tags: seq<Tag>): MemoryId {
    if tags == [] then id else Derived(DerivedAll(id, tags[..|tags| - 1]), tags[|tags| - 1])
  }

  lemma {:induction false} JoinedNext(parts: seq<string>, part: string)
    requires parts != []
    ensures Joined(parts + [part]) == Joined(parts) + SEPARATOR + part
  {
    if |parts| > 1 {
      assert (parts + [part])[1..] == parts[1..] + [part];
      JoinedNext(parts[1..], part);
      var head, rest := parts[0] + SEPARATOR, Joined(parts[1..]);
      assert head + (rest + SEPARATOR + part) == (head + rest) + SEPARATOR + part;
    }
  }

  /** So the first tag derived from a lone name reads back as part of the name, and the second as the turn of a
      structured id, if it is a number at all. */
  lemma DerivedNameReads(s: string, first: Tag, second: Tag)
    requires s != ""
    ensures var id := MemoryId(s, "", 0, [], Escape(s), false);
            var name := s + SEPARATOR + Component(first);
            var one := Derived(id, first).rendered;
            Reading(one) == Good(MemoryId(name, "", 0, [], one, false))
    ensures var id := MemoryId(s, "", 0, [], Escape(s), false);
            var two := Derived(Derived(id, first), second).rendered;
            var turn := ParseU32(Escape(Component(second)));
            Reading(two) == if turn.None? then Bad(InvalidTurn)
                            else Good(MemoryId(s, Component(first), turn.value, [], two, true))
  {
    TwoNamesRead(s, Component(first));
    ThreeNamesRead(s, Component(first), Component(second));
  }

  lemma ThreeNamesRead(s: string, t: string, u: string)
    ensures var three := Escape(s) + SEPARATOR + Escape(t) + SEPARATOR + Escape(u);
            var turn := ParseU32(Escape(u));
            Reading(three) == if turn.None? then Bad(InvalidTurn)
                              else Good(MemoryId(s, t, turn.value, [], three, true))
  {
    EscapeHasNoColon(s);
    EscapeHasNoColon(t);
    EscapeHasNoColon(u);
    ThreeParts(Escape(s), Escape(t), Escape(u));
    DecodeEscape(s);
    DecodeEscape(t);
    assert DecodeTags([Escape(s), Escape(t), Escape(u)][3..]) == Ok([]);
  }

  // ----- Ids derived from a parent's text -----

  function DerivedFrom(parent: string, tag: string): string {
    var read := Reading(parent);
    Derived(if read.Good? then read.id else Opaque(parent), FromComponent(tag)).rendered
  }

  /** Derivation extends the parent's own spelling, whether or not the parent parses. */
  lemma DerivedFromExtends(parent: string, tag: string)
    ensures DerivedFrom(parent, tag) == parent + SEPARATOR + Escape(Component(FromComponent(tag)))
  {}

  /** An id derived from a structured parent parses to the parent with one more tag exactly when the last part of the
      parent's text does not end in a raw colon. */
  lemma DerivedFromReparsesIff(parent: string, tag: string)
    requires Reading(parent).Good? && Reading(parent).id.structured
    ensures Reading(DerivedFrom(parent, tag)) == Good(Derived(Reading(parent).id, FromComponent(tag))) <==>
              !EndsWithColon(Split(parent)[|Split(parent)| - 1])
  {
    var t := FromComponent(tag);
    NormalizingIsIdempotent(tag);
    DerivedFromExtends(parent, tag);
    EscapeHasNoColon(Component(t));
    SplitAppended(parent, Escape(Component(t)));
    DerivedShape(Reading(parent).id, t);
    if EndsWithColon(Split(parent)[|Split(parent)| - 1]) {
      ColonStopsReparse(DerivedFrom(parent, tag), parent, t);
    } else {
      PlainPartReparses(DerivedFrom(parent, tag), parent, t);
    }
  }

  lemma PlainPartReparses(derived: string, parent: string, t: Tag)
    requires Reading(parent).Good? && Reading(parent).id.structured && derived != ""
    requires Split(derived) == Split(parent) + [Escape(Component(t))] && FromComponent(Component(t)) == t
    ensures Reading(derived) == Good(Reading(parent).id.(tags := Reading(parent).id.tags + [t], rendered := derived))
  {
    var parts, last := Split(parent), Escape(Component(t));
    DecodeEscape(Component(t));
    assert (parts + [last])[3..] == parts[3..] + [last];
    OneMoreTag(parts[3..], last);
  }

  lemma ColonStopsReparse(derived: string, parent: string, t: Tag)
    requires Reading(parent).Good? && Reading(parent).id.structured && EndsWithColon(Split(parent)[|Split(parent)| - 1])
    requires Split(derived) == Appended(Split(parent), Escape(Component(t))) && FromComponent(Component(t)) == t
    ensures Reading(derived).Good? ==> Reading(derived).id.tags != Reading(parent).id.tags + [t]
  {
    var parts, last := Split(parent), Escape(Component(t));
    var n := |parts| - 1;
    StructuredTags(parent);
    StructuredTags(derived);
    ColonIsNoTurn(parts[2]);
    DecodeEscape(Component(t));
    var front := MovedColon(parts, last);
    StolenColon(front, last, Component(t), t);
  }

  lemma StructuredTags(value: string)
    ensures var parts := Split(value);
            var r := Reading(value);
            r.Good? && |parts| >= 3 ==> ParseU32(parts[2]).Some? && DecodeTags(parts[3..]) == Ok(r.id.tags)
    ensures Reading(value).Good? && Reading(value).id.structured ==> |Split(value)| >= 3
  {}

  lemma MovedColon(parts: seq<string>, last: string) returns (front: seq<string>)
    requires |parts| > 3 && EndsWithColon(parts[|parts| - 1])
    ensures |Appended(parts, last)| >= 3 && Appended(parts, last)[3..] == front + [":" + last]
  {
    var n := |parts| - 1;
    front := parts[3..n] + [parts[n][..|parts[n]| - 1]];
  }

  lemma ColonIsNoTurn(s: string)
    ensures EndsWithColon(s) ==> ParseU32(s).None?
  {
    if EndsWithColon(s) {
      var digits := if s[0] == '+' then s[1..] else s;
      assert digits != "" ==> !IsDigit(digits[|digits| - 1]);
    }
  }

  /** A last part that took over a colon reads as a different tag. */
  lemma StolenColon(front: seq<string>, last: string, text: string, tag: Tag)
    requires Decode(last) == Ok(text) && Component(tag) == text
    ensures var tags := DecodeTags(front + [":" + last]); tags == Err || tags.value[|tags.value| - 1] != tag
  {
    OneMoreTag(front, ":" + last);
    assert (":" + last)[1..] == last;
    var t := FromComponent(":" + text);
    assert !StartsWith(":" + text, "card") by {
      if StartsWith(":" + text, "card") { FirstOfPrefix(":" + text, "card"); }
    }
    assert !IsCompanionText(":" + text) by {
      if StartsWith(":" + text, "rel") { FirstOfPrefix(":" + text, "rel"); }
      if StartsWith(":" + text, "fact") { FirstOfPrefix(":" + text, "fact"); }
    }
    assert Component(t) == ":" + text;
  }
}
