/** The tracepoint name grammar: the printer the producer uses and the parser
    the decoder uses. */
module Names {
  import opened Wire
  import opened Format

  const MAX_TRACEPOINT_NAME := 255
  const MAX_PROVIDER_GROUP_LENGTH := 233

  const UNDERSCORE: byte := 0x5f
  const LETTER_L: byte := 0x4c
  const LETTER_K: byte := 0x4b
  const LETTER_G: byte := 0x47

  // ------------------------------------------------------------ characters

  predicate Letter(b: byte) { 0x41 <= b <= 0x5a || 0x61 <= b <= 0x7a }

  predicate Digit(b: byte) { 0x30 <= b <= 0x39 }

  predicate LowerHex(b: byte) { Digit(b) || 0x61 <= b <= 0x66 }

  predicate Upper(b: byte) { 0x41 <= b <= 0x5a }

  predicate LowerOrDigit(b: byte) { 0x61 <= b <= 0x7a || Digit(b) }

  predicate Identifier(s: Bytes) {
    && s != []
    && (Letter(s[0]) || s[0] == UNDERSCORE)
    && forall i :: 1 <= i < |s| ==> Letter(s[i]) || Digit(s[i]) || s[i] == UNDERSCORE
  }

  predicate ValidGroup(s: Bytes) {
    forall i :: 0 <= i < |s| ==> LowerOrDigit(s[i])
  }

  // ------------------------------------------------------------ hexadecimal

  function HexDigit(v: nat): (b: byte)
    requires v < 16
    ensures LowerHex(b)
  {
    if v < 10 then 0x30 + v else 0x57 + v
  }

  function HexValue(b: byte): (v: nat)
    requires LowerHex(b)
    ensures v < 16
  {
    if b < 0x3a then b - 0x30 else b - 0x57
  }

  predicate AllLowerHex(s: Bytes) {
    forall i :: 0 <= i < |s| ==> LowerHex(s[i])
  }

  function FormatHex(v: nat): (s: Bytes)
    ensures s != [] && AllLowerHex(s)
  {
    if v < 16 then [HexDigit(v)] else FormatHex(v / 16) + [HexDigit(v % 16)]
  }

  function ParseHex(s: Bytes): nat
    requires AllLowerHex(s)
  {
    if s == [] then 0 else 16 * ParseHex(s[..|s| - 1]) + HexValue(s[|s| - 1])
  }

  lemma {:induction false} ParseFormatHex(v: nat)
    ensures ParseHex(FormatHex(v)) == v
  {
    if v >= 16 {
      ParseFormatHex(v / 16);
      assert FormatHex(v)[..|FormatHex(v)| - 1] == FormatHex(v / 16);
    } else {
      assert FormatHex(v)[..0] == [];
    }
  }

  lemma {:induction false} FormatHexLength(v: nat, digits: nat, bound: nat)
    requires digits > 0 && v < bound && bound == Pow16(digits)
    ensures |FormatHex(v)| <= digits
  {
    if v >= 16 {
      assert digits > 1;
      FormatHexLength(v / 16, digits - 1, Pow16(digits - 1));
    }
  }

  function Pow16(n: nat): (r: nat)
    ensures r > 0
  {
    if n == 0 then 1 else 16 * Pow16(n - 1)
  }

  lemma Pow16Of16()
    ensures Pow16(16) == 0x1_0000_0000_0000_0000
  {
    assert Pow16(4) == 0x1_0000;
    assert Pow16(8) == 0x1_0000_0000 by { assert Pow16(6) == 0x100_0000; }
    assert Pow16(12) == 0x1_0000_0000_0000 by { assert Pow16(10) == 0x100_0000_0000; }
    assert Pow16(14) == 0x100_0000_0000_0000;
  }

  // ---------------------------------------------------------------- printer

  datatype NameError = ErrInvalidName | ErrInvalidLevel

  function RenderName(provider: Bytes, level: nat, keyword: u64, group: Bytes): Bytes {
    provider + [UNDERSCORE, LETTER_L] + FormatHex(level) + [LETTER_K] + FormatHex(keyword)
    + (if group != [] then [LETTER_G] + group else [])
  }

  function TracepointName(provider: Bytes, level: byte, keyword: u64, group: Bytes): Result<Bytes, NameError> {
    if !Identifier(provider) then Err(ErrInvalidName)
    else if !(1 <= level <= 5) then Err(ErrInvalidLevel)
    else if !ValidGroup(group) then Err(ErrInvalidName)
    else if |provider| + |group| > MAX_PROVIDER_GROUP_LENGTH then Err(ErrInvalidName)
    else
      var name := RenderName(provider, level, keyword, group);
      if |name| > MAX_TRACEPOINT_NAME then Err(ErrInvalidName) else Ok(name)
  }

  // ----------------------------------------------------------------- parser

  datatype ErrorKind = Truncated | Invalid | Limit | Unsupported

  datatype DecodeError = DecodeError(offset: nat, kind: ErrorKind)

  datatype TraceName = TraceName(provider: Bytes, level: byte, keyword: u64, options: Bytes)

  /** Start of the last "_L" that begins before `end`. */
  function LastMarker(s: Bytes, end: nat): (r: Option<nat>)
    requires end < |s| || end == 0
    ensures r.Some? ==> r.value < end && s[r.value] == UNDERSCORE && s[r.value + 1] == LETTER_L
    ensures r.Some? ==> forall i :: r.value < i < end ==> !(s[i] == UNDERSCORE && s[i + 1] == LETTER_L)
    ensures r.None? ==> forall i :: 0 <= i < end ==> !(s[i] == UNDERSCORE && s[i + 1] == LETTER_L)
  {
    if end == 0 then None
    else if s[end - 1] == UNDERSCORE && s[end] == LETTER_L then Some(end - 1)
    else LastMarker(s, end - 1)
  }

  /** Position of the first `value` at or after `pos`. */
  function IndexOf(s: Bytes, pos: nat, value: byte): (r: Option<nat>)
    requires pos <= |s|
    ensures r.Some? ==> pos <= r.value < |s| && s[r.value] == value && value !in s[pos..r.value]
    ensures r.None? ==> value !in s[pos..]
    decreases |s| - pos
  {
    if pos == |s| then None
    else if s[pos] == value then Some(pos)
    else IndexOf(s, pos + 1, value)
  }

  /** Length of the longest prefix of lower-case hexadecimal digits. */
  function HexRun(s: Bytes): (n: nat)
    ensures n <= |s| && AllLowerHex(s[..n])
    ensures n < |s| ==> !LowerHex(s[n])
  {
    if s == [] || !LowerHex(s[0]) then 0 else 1 + HexRun(s[1..])
  }

  /** Upper-case letters, each followed by lower-case letters and digits. */
  predicate ValidOptions(s: Bytes) {
    && (s != [] ==> Upper(s[0]))
    && forall i :: 0 <= i < |s| ==> Upper(s[i]) || LowerOrDigit(s[i])
  }

  /** Level, keyword and options: everything after the marker. */
  function ParseTail(provider: Bytes, rest: Bytes): Result<TraceName, DecodeError> {
    var bad := Err(DecodeError(0, Invalid));
    match IndexOf(rest, 0, LETTER_K)
    case None => bad
    case Some(k) =>
      if k == 0 then bad
      else
        var levelText := rest[..k];
        var tail := rest[k + 1..];
        var n := HexRun(tail);
        if n == 0 || !AllLowerHex(levelText) then bad
        else
          var level, keyword := ParseHex(levelText), ParseHex(tail[..n]);
          if !(1 <= level <= 5) then bad
          else if keyword >= 0x1_0000_0000_0000_0000 then bad
          else if !ValidOptions(tail[n..]) then bad
          else Ok(TraceName(provider, level, keyword, tail[n..]))
  }

  function ParseTracepointName(name: Bytes): Result<TraceName, DecodeError> {
    var bad := Err(DecodeError(0, Invalid));
    if |name| > MAX_TRACEPOINT_NAME then bad
    else match LastMarker(name, if name == [] then 0 else |name| - 1)
      case None => bad
      case Some(marker) =>
        if marker == 0 || !Identifier(name[..marker]) then bad
        else ParseTail(name[..marker], name[marker + 2..])
  }

  // ------------------------------------------------------------- round trip

  function GroupOptions(group: Bytes): Bytes {
    if group != [] then [LETTER_G] + group else []
  }

  /** What follows the marker of a printed name. */
  function NameTail(level: byte, keyword: u64, group: Bytes): Bytes
  {
    FormatHex(level) + [LETTER_K] + FormatHex(keyword) + GroupOptions(group)
  }

  lemma {:induction false} HexRunOf(hex: Bytes, rest: Bytes)
    requires AllLowerHex(hex) && (rest != [] ==> !LowerHex(rest[0]))
    ensures HexRun(hex + rest) == |hex|
  {
    if hex != [] {
      assert (hex + rest)[1..] == hex[1..] + rest;
      HexRunOf(hex[1..], rest);
    }
  }

  lemma MarkerOf(provider: Bytes, tail: Bytes)
    requires tail != [] && UNDERSCORE !in tail
    ensures var name := provider + [UNDERSCORE, LETTER_L] + tail;
            LastMarker(name, |name| - 1) == Some(|provider|)
  {
    var name := provider + [UNDERSCORE, LETTER_L] + tail;
    assert name[|provider|] == UNDERSCORE && name[|provider| + 1] == LETTER_L;
    forall i | |provider| < i < |name| ensures name[i] != UNDERSCORE {
      if i > |provider| + 1 {
        assert name[i] == tail[i - |provider| - 2];
      }
    }
  }

  /** The tail of a printed name is read back. */
  lemma ParseTailOf(provider: Bytes, level: byte, keyword: u64, group: Bytes)
    requires 1 <= level <= 5 && ValidGroup(group)
    ensures UNDERSCORE !in NameTail(level, keyword, group)
    ensures ParseTail(provider, NameTail(level, keyword, group))
            == Ok(TraceName(provider, level, keyword, GroupOptions(group)))
  {
    hide ParseTail, FormatHex, ParseHex, AllLowerHex;
    ParseFormatHex(level);
    ParseFormatHex(keyword);
    TailSpelled(provider, FormatHex(level), FormatHex(keyword), GroupOptions(group));
  }

  lemma RenderedName(provider: Bytes, level: byte, keyword: u64, group: Bytes)
    ensures RenderName(provider, level, keyword, group)
            == provider + [UNDERSCORE, LETTER_L] + NameTail(level, keyword, group)
  {
    var head, a, b, c := provider + [UNDERSCORE, LETTER_L], FormatHex(level) + [LETTER_K], FormatHex(keyword), GroupOptions(group);
    assert RenderName(provider, level, keyword, group) == head + (a + b + c);
  }

  lemma ParseSplits(provider: Bytes, tail: Bytes)
    requires Identifier(provider) && tail != [] && UNDERSCORE !in tail
    requires |provider| + 2 + |tail| <= MAX_TRACEPOINT_NAME
    ensures ParseTracepointName(provider + [UNDERSCORE, LETTER_L] + tail) == ParseTail(provider, tail)
  {
    var name := provider + [UNDERSCORE, LETTER_L] + tail;
    MarkerOf(provider, tail);
    assert name[..|provider|] == provider && name[|provider| + 2..] == tail;
  }

  /** Printing and then parsing gives back provider, level and keyword, and the
      group as its option, whatever the provider itself contains. */
  lemma ParsePrinted(provider: Bytes, level: byte, keyword: u64, group: Bytes)
    requires TracepointName(provider, level, keyword, group).Ok?
    ensures ParseTracepointName(TracepointName(provider, level, keyword, group).value)
            == Ok(TraceName(provider, level, keyword, GroupOptions(group)))
  {
    var name := RenderName(provider, level, keyword, group);
    var tail := NameTail(level, keyword, group);
    RenderedName(provider, level, keyword, group);
    ParseTailOf(provider, level, keyword, group);
    ParseSplits(provider, tail);
  }

  /** The parts of a tracepoint name: provider, marker, level, K, keyword, options. */
  function Spelled(provider: Bytes, levelText: Bytes, hex: Bytes, options: Bytes): Bytes {
    provider + [UNDERSCORE, LETTER_L] + (levelText + [LETTER_K] + hex + options)
  }

  /** What the parts behind the marker must be; leading zeros are allowed, and an
      option is an upper-case letter with lower-case letters and digits behind it. */
  predicate WellTailed(levelText: Bytes, hex: Bytes, options: Bytes) {
    && levelText != [] && AllLowerHex(levelText) && 1 <= ParseHex(levelText) <= 5
    && hex != [] && AllLowerHex(hex) && ParseHex(hex) < 0x1_0000_0000_0000_0000
    && (forall i :: 0 <= i < |options| ==> Upper(options[i]) || LowerOrDigit(options[i]))
    && (options != [] ==> Upper(options[0]))
  }

  predicate WellSpelled(provider: Bytes, levelText: Bytes, hex: Bytes, options: Bytes) {
    Identifier(provider) && WellTailed(levelText, hex, options) && |Spelled(provider, levelText, hex, options)| <= 255
  }

  /** A well-spelled name is read as its parts. */
  lemma SpelledParses(provider: Bytes, levelText: Bytes, hex: Bytes, options: Bytes)
    requires WellSpelled(provider, levelText, hex, options)
    ensures ParseTracepointName(Spelled(provider, levelText, hex, options))
            == Ok(TraceName(provider, ParseHex(levelText), ParseHex(hex), options))
  {
    hide ParseTracepointName, ParseTail, Identifier, AllLowerHex, ParseHex;
    TailSpelled(provider, levelText, hex, options);
    ParseSplits(provider, levelText + [LETTER_K] + hex + options);
  }

  lemma TailSpelled(provider: Bytes, levelText: Bytes, hex: Bytes, options: Bytes)
    requires WellTailed(levelText, hex, options)
    ensures var tail := levelText + [LETTER_K] + hex + options;
            && UNDERSCORE !in tail
            && ParseTail(provider, tail) == Ok(TraceName(provider, ParseHex(levelText), ParseHex(hex), options))
  {
    hide Identifier, ParseHex, Spelled;
    var tail, rest := levelText + [LETTER_K] + hex + options, hex + options;
    NoUnderscore(levelText, hex, options);
    assert tail == levelText + [LETTER_K] + rest;
    FirstK(levelText, rest);
    HexRunOf(hex, options);
    hide IndexOf, HexRun;
    assert tail[..|levelText|] == levelText && tail[|levelText| + 1..] == rest;
    assert rest[..|hex|] == hex && rest[|hex|..] == options;
  }

  lemma NoUnderscore(levelText: Bytes, hex: Bytes, options: Bytes)
    requires AllLowerHex(levelText) && AllLowerHex(hex)
    requires forall i :: 0 <= i < |options| ==> Upper(options[i]) || LowerOrDigit(options[i])
    ensures UNDERSCORE !in levelText + [LETTER_K] + hex + options
  {
  }

  lemma FirstK(levelText: Bytes, rest: Bytes)
    requires AllLowerHex(levelText)
    ensures IndexOf(levelText + [LETTER_K] + rest, 0, LETTER_K) == Some(|levelText|)
  {
    var s := levelText + [LETTER_K] + rest;
    assert s[|levelText|] == LETTER_K;
  }

  /** Whatever is read as a name was well spelled, and anything else is refused. */
  lemma ParsedIsSpelled(name: Bytes) returns (levelText: Bytes, hex: Bytes)
    ensures ParseTracepointName(name).Err? ==> ParseTracepointName(name).error == DecodeError(0, Invalid)
    ensures ParseTracepointName(name).Ok? ==>
              var t := ParseTracepointName(name).value;
              && name == Spelled(t.provider, levelText, hex, t.options)
              && WellSpelled(t.provider, levelText, hex, t.options)
              && t.level == ParseHex(levelText) && t.keyword == ParseHex(hex)
  {
    hide ParseTail, Identifier, AllLowerHex, ParseHex;
    levelText, hex := [], [];
    var last := LastMarker(name, if name == [] then 0 else |name| - 1);
    if |name| <= MAX_TRACEPOINT_NAME && last.Some? {
      var provider, rest := name[..last.value], name[last.value + 2..];
      levelText, hex := ParsedTail(provider, rest);
      assert name == provider + [UNDERSCORE, LETTER_L] + rest;
    }
  }

  lemma ParsedTail(provider: Bytes, rest: Bytes) returns (levelText: Bytes, hex: Bytes)
    ensures ParseTail(provider, rest).Err? ==> ParseTail(provider, rest).error == DecodeError(0, Invalid)
    ensures ParseTail(provider, rest).Ok? ==>
              var t := ParseTail(provider, rest).value;
              && t.provider == provider && rest == levelText + [LETTER_K] + hex + t.options
              && WellTailed(levelText, hex, t.options)
              && t.level == ParseHex(levelText) && t.keyword == ParseHex(hex)
  {
    hide ParseHex, HexRun, IndexOf;
    levelText, hex := [], [];
    var k := IndexOf(rest, 0, LETTER_K);
    if k.Some? {
      var tail := rest[k.value + 1..];
      levelText, hex := rest[..k.value], tail[..HexRun(tail)];
      assert tail == hex + tail[HexRun(tail)..];
      assert rest == levelText + [LETTER_K] + tail;
      assert rest == levelText + [LETTER_K] + hex + tail[HexRun(tail)..];
    }
  }

  /** A name is accepted if and only if it is well spelled for some parts. */
  lemma NameIff(name: Bytes)
    ensures ParseTracepointName(name).Ok? <==>
            exists provider, levelText, hex, options ::
              WellSpelled(provider, levelText, hex, options) && name == Spelled(provider, levelText, hex, options)
  {
    hide WellSpelled, Spelled, ParseTracepointName;
    var levelText, hex := ParsedIsSpelled(name);
    forall provider, levelText, hex, options
      | WellSpelled(provider, levelText, hex, options) && name == Spelled(provider, levelText, hex, options)
      ensures ParseTracepointName(name).Ok?
    {
      SpelledParses(provider, levelText, hex, options);
    }
  }

  /** Identifiers and groups grow character by character. */
  lemma Growing(s: Bytes, b: byte)
    ensures Identifier([b]) <==> Letter(b) || b == UNDERSCORE
    ensures s != [] ==> (Identifier(s + [b]) <==> Identifier(s) && (Letter(b) || Digit(b) || b == UNDERSCORE))
    ensures !Identifier([])
    ensures ValidGroup([]) && (ValidGroup(s + [b]) <==> ValidGroup(s) && LowerOrDigit(b))
  {
    var t := s + [b];
    assert t[|s|] == b;
    assert forall i :: 0 <= i < |s| ==> t[i] == s[i];
  }

  /** The character classes and letters in ASCII. */
  lemma Characters(b: byte, c: char)
    requires b == c as int
    ensures UNDERSCORE == b <==> c == '_'
    ensures LETTER_L == b <==> c == 'L'
    ensures LETTER_K == b <==> c == 'K'
    ensures LETTER_G == b <==> c == 'G'
    ensures SEMICOLON == b <==> c == ';'
    ensures Letter(b) <==> 'A' <= c <= 'Z' || 'a' <= c <= 'z'
    ensures Digit(b) <==> '0' <= c <= '9'
    ensures Upper(b) <==> 'A' <= c <= 'Z'
    ensures LowerOrDigit(b) <==> 'a' <= c <= 'z' || '0' <= c <= '9'
    ensures LowerHex(b) <==> '0' <= c <= '9' || 'a' <= c <= 'f'
    ensures LowerHex(b) ==> HexValue(b) < 16 && "0123456789abcdef"[HexValue(b)] == c
  {
  }

  /** The limit on provider and group already implies the limit on the whole
      name: the second length check never rejects. */
  lemma GroupLimitSuffices(provider: Bytes, level: byte, keyword: u64, group: Bytes)
    ensures TracepointName(provider, level, keyword, group).Ok?
            <==> Identifier(provider) && 1 <= level <= 5 && (forall i :: 0 <= i < |group| ==> LowerOrDigit(group[i]))
                 && |provider| + |group| <= 233
  {
    Pow16Of16();
    FormatHexLength(keyword, 16, 0x1_0000_0000_0000_0000);
  }

  /** Two cache keys of one provider never share a tracepoint name. */
  lemma NamesInjective(provider: Bytes, level: byte, keyword: u64, group: Bytes,
                       level': byte, keyword': u64, group': Bytes)
    requires TracepointName(provider, level, keyword, group).Ok?
    requires TracepointName(provider, level, keyword, group) == TracepointName(provider, level', keyword', group')
    ensures level == level' && keyword == keyword' && group == group'
  {
    ParsePrinted(provider, level, keyword, group);
    ParsePrinted(provider, level', keyword', group');
    if group != [] {
      assert GroupOptions(group)[1..] == group;
    }
    if group' != [] {
      assert GroupOptions(group')[1..] == group';
    }
  }
}
