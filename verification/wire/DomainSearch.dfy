/** The option that lists search domains, as a list of names in DNS form in which the end of
    a name can be a pointer to an earlier name (RFC 3397, section 2). */
module DomainSearch {
  import opened BigEndian
  import opened Wrappers
  import opened Bytes

  // ----- names as configured -----

  /** check_name: the name without one trailing dot, or None for a name that is refused. */
  function CheckName(name: string): (r: Option<string>)
    ensures r.Some? ==> r.value != "" && |r.value| <= |name|
    ensures r.Some? ==> Acceptable(r.value)
  {
    if name == "" || |name| > MAXDNAME || name == "." then None else
    var s := if name[|name| - 1] == '.' then name[..|name| - 1] else name;
    if Acceptable(s) && NotBlank(s) then Some(s) else None
  }

  /** Something other than dots and spaces. */
  predicate NotBlank(s: string) {
    exists i :: 0 <= i < |s| && s[i] != '.' && s[i] != ' '
  }

  predicate Printable(c: char) {
    ' ' <= c && c < 127 as char
  }

  /** No control or non-ASCII characters, and no label that is too long. */
  predicate Acceptable(s: string) {
    (forall i :: 0 <= i < |s| ==> Printable(s[i])) && LabelsFit(s, 0)
  }

  /** gap characters of the current label came before s. */
  predicate LabelsFit(s: string, gap: nat) {
    if s == "" then true
    else if s[0] == '.' then LabelsFit(s[1..], 0)
    else gap < MAXLABEL && LabelsFit(s[1..], gap + 1)
  }

  /** Length of the label that s starts with. */
  function LabelLength(s: string): (k: nat)
    ensures k <= |s| && (k < |s| ==> s[k] == '.')
    ensures forall i :: 0 <= i < k ==> s[i] != '.'
  {
    if s == "" || s[0] == '.' then 0 else 1 + LabelLength(s[1..])
  }

  /** The labels of a name. A dot at the end adds none. */
  function Labels(s: string): seq<string>
    decreases |s|
  {
    if s == "" then [] else
    var k := LabelLength(s);
    [s[..k]] + Labels(if k < |s| then s[k + 1..] else "")
  }

  // ----- names in DNS form -----

  function Label(s: string): (b: seq<byte>)
    requires |s| < 256
  {
    [|s|] + ToBytes(s)
  }

  predicate Short(labels: seq<string>) {
    forall i :: 0 <= i < |labels| ==> |labels[i]| <= MAXLABEL
  }

  /** The labels without the root's. */
  function LabelBytes(labels: seq<string>): seq<byte>
    requires Short(labels)
  {
    if labels == [] then [] else Label(labels[0]) + LabelBytes(labels[1..])
  }

  function Wire(labels: seq<string>): seq<byte>
    requires Short(labels)
  {
    LabelBytes(labels) + [0]
  }

  /** A name read from a buffer, and where reading goes on. */
  datatype Read = Read(labels: seq<seq<byte>>, next: nat)

  /** The name at offset i (RFC 1035, section 4.1.4). A pointer has to lead to before the run
      of labels it ends, which starts at run. */
  function Decode(b: seq<byte>, i: nat, run: nat): (r: Option<Read>)
    ensures r.Some? ==> i < r.value.next <= |b|
    decreases run, |b| - i
  {
    if i >= |b| then None
    else if b[i] == 0 then Some(Read([], i + 1))
    else if b[i] >= 0xC0 then
      if i + 1 >= |b| || Target(b[i], b[i + 1]) >= run then None else
      var t := Target(b[i], b[i + 1]);
      var rest := Decode(b, t, t);
      if rest.None? then None else Some(Read(rest.value.labels, i + 2))
    else if b[i] > MAXLABEL || i + 1 + b[i] > |b| then None
    else
      var rest := Decode(b, i + 1 + b[i], run);
      if rest.None? then None
      else Some(Read([b[i + 1..i + 1 + b[i]]] + rest.value.labels, rest.value.next))
  }

  /** All the names of a buffer from offset i on. */
  function DecodeAll(b: seq<byte>, i: nat): Option<seq<seq<seq<byte>>>>
    decreases |b| - i
  {
    if i >= |b| then Some([]) else
    var name := Decode(b, i, i);
    if name.None? then None else
    var rest := DecodeAll(b, name.value.next);
    if rest.None? then None else Some([name.value.labels] + rest.value)
  }

  // ----- the tail compressor -----

  /** strcmp finds no difference between the texts at r and at t. The buffer ends in a zero. */
  predicate SameText(b: seq<byte>, r: nat, t: nat)
    requires r < t < |b| && b[|b| - 1] == 0
    decreases |b| - t
  {
    b[r] == b[t] && (b[t] == 0 || SameText(b, r + 1, t + 1))
  }

  /** The walk over the names before offset len for a text equal to the one at t. It steps over
      a pointer as if it were a label, and so need not meet the labels behind it. */
  function Walk(b: seq<byte>, r: nat, len: nat, t: nat): (m: Option<nat>)
    requires len <= t < |b| && b[|b| - 1] == 0
    ensures m.Some? ==> m.value < len && SameText(b, m.value, t)
    decreases len - r
  {
    if r >= len then None
    else if SameText(b, r, t) then Some(r)
    else Walk(b, r + b[r] + 1, len, t)
  }

  datatype Match = Match(tail: nat, target: nat)

  /** The first tail of the name, from t on, that the walk finds. */
  function FirstTail(b: seq<byte>, t: nat, len: nat): (m: Option<Match>)
    requires len <= |b| && len <= t && |b| > 0 && b[|b| - 1] == 0
    ensures m.Some? ==> t <= m.value.tail < |b| && m.value.target < len
                        && b[m.value.tail] != 0 && SameText(b, m.value.target, m.value.tail)
    decreases |b| - t
  {
    if t >= |b| || b[t] == 0 then None
    else match Walk(b, 0, len, t)
      case Some(r) => Some(Match(t, r))
      case None => FirstTail(b, t + b[t] + 1, len)
  }

  /** The buffer after one more name. */
  function AddName(b: seq<byte>, labels: seq<string>): seq<byte>
    requires Short(labels)
  {
    var full := b + Wire(labels);
    match FirstTail(full, |b|, |b|)
    case Some(m) => full[..m.tail] + [PointerHigh(m.target), PointerLow(m.target)]
    case None => full
  }

  function AddNames(b: seq<byte>, names: seq<seq<string>>): seq<byte>
    requires forall i :: 0 <= i < |names| ==> Short(names[i])
  {
    if names == [] then b
    else AddName(AddNames(b, names[..|names| - 1]), names[|names| - 1])
  }
}
