/** Character level of the demangler: the state the parse functions pass along, and the
    functions that read characters, numbers and the like. */
module Scanner {
  import opened Decimals
  import opened Wrappers
  import opened Components

  /** The text and the options of one demangling. The text is a C string. */
  datatype Input = Input(text: string, options: Options)

  /** Where a parse stands: next character, entries made so far, substitutions recorded so
      far, the last name seen, and where the first thing stands at which the source goes
      astray (Stray below); what it does then is not followed. */
  datatype State = State(n: nat, made: nat, subs: seq<Comp>, last: Option<Comp>, lost: Option<nat>)

  /** A parse result, NULL or a value, and the state after it. */
  datatype Parse<T> = Parse(value: Option<T>, st: State)

  /** A number read, or a yes/no answer, and the state after it. */
  datatype Count = Count(num: int, st: State)
  datatype Answer = Answer(yes: bool, st: State)

  predicate CString(s: string) {
    '\0' !in s
  }

  ghost predicate In(x: Input, st: State) {
    CString(x.text) && st.n <= |x.text|
  }

  /** d_peek_char: the terminating NUL at the end. */
  function Peek(x: Input, st: State): (c: char)
    ensures In(x, st) ==> (c == '\0' <==> st.n == |x.text|)
  {
    if st.n < |x.text| then x.text[st.n] else '\0'
  }

  function PeekNext(x: Input, st: State): char {
    if st.n + 1 < |x.text| then x.text[st.n + 1] else '\0'
  }

  function Advance(st: State, k: nat): State {
    st.(n := st.n + k)
  }

  /** d_next_char: stays put at the end. */
  function Next(x: Input, st: State): State {
    if st.n < |x.text| then Advance(st, 1) else st
  }

  /** One more entry taken from the arena. */
  function Made(st: State): State {
    st.(made := st.made + 1)
  }

  const WORD: int := 0x1_0000_0000
  const INT_MAX: int := 0x7fff_ffff

  /** The conversion of a long to an int of 32 bits. */
  function ToInt(v: int): (r: int)
    ensures -INT_MAX - 1 <= r <= INT_MAX
    ensures -INT_MAX - 1 <= v <= INT_MAX ==> r == v
  {
    (v + INT_MAX + 1) % WORD - INT_MAX - 1
  }

  /** The number whose digits are at i, after digits that make acc. */
  function NumberAt(text: string, i: nat, acc: nat): nat
    decreases |text| - i
  {
    if i < |text| && IsDigit(text[i]) then NumberAt(text, i + 1, acc * 10 + (text[i] as int - '0' as int)) else acc
  }

  /** A number that is negative as an int. As the length of a name it takes the source back to
      characters it has read, or to before the text. */
  predicate BadLength(text: string, i: nat) {
    ToInt(NumberAt(text, i, 0)) < 0
  }

  /** A vendor operator for two operands. In an expression the source looks its code up through
      the member of a union that holds the number of operands. */
  predicate VendorBinary(text: string, i: nat) {
    i + 1 < |text| && text[i] == 'v' && text[i + 1] == '2'
  }

  predicate Stray(text: string, i: nat) {
    BadLength(text, i) || VendorBinary(text, i)
  }

  predicate IsUpper(c: char) { 'A' <= c <= 'Z' }
  predicate IsLower(c: char) { 'a' <= c <= 'z' }

  /** What a piece of parsing may spend. A result that reads k characters makes at most
      2k - slack entries and records at most k - room substitutions when it succeeds, and at
      most 2k and k when it fails; a negative slack may also be used up by a failure. */
  ghost predicate Within<T>(x: Input, st: State, r: Parse<T>, slack: int, room: nat) {
    && In(x, r.st)
    && st.n <= r.st.n && st.made <= r.st.made && |st.subs| <= |r.st.subs|
    && r.st.made - st.made + (if r.value.Some? || slack < 0 then slack else 0) <= 2 * (r.st.n - st.n)
    && |r.st.subs| - |st.subs| + (if r.value.Some? then room else 0) <= r.st.n - st.n
    && (r.st.lost == st.lost ||
        (st.lost.None? && r.st.lost.Some? && st.n <= r.st.lost.value && Stray(x.text, r.st.lost.value)))
  }

  /** Only the position moved. */
  ghost predicate Moved(x: Input, st: State, st': State) {
    && In(x, st') && st.n <= st'.n
    && st'.made == st.made && st'.subs == st.subs && st'.last == st.last && st'.lost == st.lost
  }

  function Digits(x: Input, st: State, acc: nat): (r: Count)
    requires In(x, st)
    ensures Moved(x, st, r.st) && r.num >= 0
    ensures IsDigit(Peek(x, st)) ==> r.st.n > st.n
    ensures acc == 0 && r.num > 0 ==> r.st.n > st.n
    ensures !IsDigit(Peek(x, r.st))
    ensures r.num == NumberAt(x.text, st.n, acc)
    decreases |x.text| - st.n
  {
    var c := Peek(x, st);
    if IsDigit(c) then Digits(x, Advance(st, 1), acc * 10 + (c as int - '0' as int))
    else Count(acc, st)
  }

  /** d_number: an optional `n' for minus, and digits, possibly none. */
  function ScanNumber(x: Input, st: State): (r: Count)
    requires In(x, st)
    ensures Moved(x, st, r.st)
    ensures Peek(x, st) != 'n' ==> r.num >= 0
    ensures r.num > 0 ==> r.st.n > st.n && r.num == NumberAt(x.text, st.n, 0)
    ensures IsDigit(Peek(x, st)) ==> r.st.n > st.n
  {
    if Peek(x, st) == 'n' then
      var d := Digits(x, Advance(st, 1), 0);
      Count(-d.num, d.st)
    else Digits(x, st, 0)
  }

  /** d_compact_number: -1 for a malformed one. */
  function CompactNumber(x: Input, st: State): (r: Count)
    requires In(x, st)
    ensures Moved(x, st, r.st)
    ensures r.num >= 0 ==> r.st.n > st.n
  {
    if Peek(x, st) == 'n' then Count(-1, st)
    else
      var num := if Peek(x, st) == '_' then Count(0, st)
                 else var d := ScanNumber(x, st); Count(d.num + 1, d.st);
      if Peek(x, num.st) == '_' then Count(num.num, Advance(num.st, 1)) else Count(-1, num.st)
  }

  /** d_compact_number for callers that keep the number as an int. */
  function CompactInt(x: Input, st: State): (r: Count)
    requires In(x, st)
    ensures Moved(x, st, r.st)
    ensures r.num >= 0 ==> r.st.n > st.n
  {
    var num := CompactNumber(x, st);
    Count(ToInt(num.num), num.st)
  }

  /** d_discriminator. */
  function Discriminator(x: Input, st: State): (r: Answer)
    requires In(x, st)
    ensures Moved(x, st, r.st)
  {
    if Peek(x, st) != '_' then Answer(true, st)
    else var d := ScanNumber(x, Advance(st, 1)); Answer(d.num >= 0, d.st)
  }

  /** d_call_offset; c is the character already read, or NUL. */
  function CallOffset(x: Input, st: State, c: char): (r: Answer)
    requires In(x, st)
    ensures Moved(x, st, r.st)
  {
    var kind := if c == '\0' then Peek(x, st) else c;
    var s := if c == '\0' then Next(x, st) else st;
    if kind == 'h' then Underscore(x, ScanNumber(x, s).st)
    else if kind == 'v' then
      var a := Underscore(x, ScanNumber(x, s).st);
      if !a.yes then a else Underscore(x, ScanNumber(x, a.st).st)
    else Answer(false, s)
  }

  function Underscore(x: Input, st: State): (r: Answer)
    requires In(x, st)
    ensures Moved(x, st, r.st)
  {
    if Peek(x, st) == '_' then Answer(true, Advance(st, 1)) else Answer(false, st)
  }

  /** The literal of an expression runs up to the next `E'; no `E' is an error. */
  function LiteralEnd(x: Input, st: State): (r: Answer)
    requires In(x, st)
    ensures Moved(x, st, r.st)
    ensures r.yes ==> Peek(x, r.st) == 'E'
    decreases |x.text| - st.n
  {
    if Peek(x, st) == 'E' then Answer(true, st)
    else if Peek(x, st) == '\0' then Answer(false, st)
    else LiteralEnd(x, Advance(st, 1))
  }

  function DigitRun(x: Input, st: State): (r: State)
    requires In(x, st)
    ensures Moved(x, st, r)
    ensures IsDigit(Peek(x, st)) ==> r.n > st.n
    decreases |x.text| - st.n
  {
    if IsDigit(Peek(x, st)) then DigitRun(x, Advance(st, 1)) else st
  }

  /** The base 36 number of a substitution, in an unsigned int. -1 for a bad digit or for an
      overflow the source notices; c was read just before st. The increment after the last
      digit wraps. */
  function SeqId(x: Input, st: State, c: char, id: nat): (r: Count)
    requires In(x, st) && id < WORD
    ensures Moved(x, st, r.st)
    ensures r.num < WORD
    decreases |x.text| - st.n, if c == '_' then 0 else 1
  {
    if !IsDigit(c) && !IsUpper(c) then Count(-1, st)
    else
      var digit := if IsDigit(c) then c as int - '0' as int else c as int - 'A' as int + 10;
      var next := (id * 36 + digit) % WORD;
      if next < id then Count(-1, st)
      else if Peek(x, st) == '_' then Count((next + 1) % WORD, Advance(st, 1))
      else if Peek(x, st) == '\0' then Count(-1, st)
      else SeqId(x, Advance(st, 1), Peek(x, st), next)
  }
}
