/** Controller addresses: "traddr=10.42.2.18 trsvcid=20006", separated by commas or spaces. */
module NvmeAddress {

  predicate IsSeparator(c: char) {
    c == ',' || c == ' '
  }

  /** White space as the host language trims it. */
  predicate IsSpace(c: char) {
    c == ' ' || '\t' <= c <= '\r' || c == '\U{0085}' || c == '\U{00A0}' || c == '\U{1680}' ||
    '\U{2000}' <= c <= '\U{200A}' || c == '\U{2028}' || c == '\U{2029}' || c == '\U{202F}' ||
    c == '\U{205F}' || c == '\U{3000}'
  }

  function TrimLeft(s: string): string {
    if s != "" && IsSpace(s[0]) then TrimLeft(s[1..]) else s
  }

  function TrimRight(s: string): string {
    if s != "" && IsSpace(s[|s| - 1]) then TrimRight(s[..|s| - 1]) else s
  }

  function Trim(s: string): string {
    TrimRight(TrimLeft(s))
  }

  function OneOrNone(field: string): seq<string> {
    if field == "" then [] else [field]
  }

  /** Maximal separator-free runs of `s`, the first of them prefixed by `current`. */
  function FieldsAfter(current: string, s: string): seq<string>
    decreases |s|
  {
    if s == "" then OneOrNone(current)
    else if IsSeparator(s[0]) then OneOrNone(current) + FieldsAfter("", s[1..])
    else FieldsAfter(current + [s[0]], s[1..])
  }

  function Fields(s: string): seq<string> {
    FieldsAfter("", s)
  }

  /** Position of the first '=', or the length when there is none. */
  function FirstEquals(s: string): (i: nat)
    ensures i <= |s|
    ensures i < |s| ==> s[i] == '='
    ensures forall j :: 0 <= j < i ==> s[j] != '='
  {
    if s == "" || s[0] == '=' then 0 else 1 + FirstEquals(s[1..])
  }

  /** The effect of one field on the address and port found so far. */
  function Absorb(found: (string, string), part: string): (string, string) {
    var i := FirstEquals(part);
    if i == |part| then found
    else
      var key, value := Trim(part[..i]), Trim(part[i + 1..]);
      if key == "traddr" then (value, found.1)
      else if key == "trsvcid" then (found.0, value)
      else found
  }

  function AbsorbAll(parts: seq<string>): (string, string) {
    if parts == [] then ("", "")
    else Absorb(AbsorbAll(parts[..|parts| - 1]), parts[|parts| - 1])
  }

  function ParseAddress(address: string): (string, string) {
    AbsorbAll(Fields(address))
  }

  method GetIPAndPortFromControllerAddress(address: string) returns (traddr: string, trsvcid: string)
    ensures (traddr, trsvcid) == ParseAddress(address)
  {
    traddr, trsvcid := "", "";
    var parts := Fields(address);
    for n := 0 to |parts|
      invariant (traddr, trsvcid) == AbsorbAll(parts[..n])
    {
      var part := parts[n];
      assert parts[..n + 1][..n] == parts[..n];
      var i := FirstEquals(part);
      if i < |part| {
        var key, value := Trim(part[..i]), Trim(part[i + 1..]);
        if key == "traddr" {
          traddr := value;
        } else if key == "trsvcid" {
          trsvcid := value;
        }
      }
    }
    assert parts[..|parts|] == parts;
  }

  // Printing, and that parsing inverts it.

  /** A key with a value, or a word without '='. */
  datatype Field = Field(key: string, value: string) | Bare(word: string)

  function Text(f: Field): string {
    match f
    case Field(key, value) => key + "=" + value
    case Bare(word) => word
  }

  predicate SeparatorFree(s: string) {
    forall i :: 0 <= i < |s| ==> s[i] != ',' && s[i] != ' '
  }

  predicate AllSeparators(s: string) {
    forall i :: 0 <= i < |s| ==> s[i] == ',' || s[i] == ' '
  }

  /** A key has no separator and no '='; a value has no separator but may contain ':' and '='. */
  predicate Printable(f: Field) {
    match f
    case Field(key, value) => SeparatorFree(key) && SeparatorFree(value) && '=' !in key
    case Bare(word) => SeparatorFree(word) && '=' !in word && word != ""
  }

  /** Fields printed in order: gaps[i] stands before field i and the last gap ends the text. */
  function Print(fields: seq<Field>, gaps: seq<string>): string
    requires |gaps| == |fields| + 1
  {
    if fields == [] then gaps[0]
    else gaps[0] + Text(fields[0]) + Print(fields[1..], gaps[1..])
  }

  /** Runs of separators, non-empty between two fields. */
  predicate ProperGaps(gaps: seq<string>) {
    && (forall i :: 0 <= i < |gaps| ==> AllSeparators(gaps[i]))
    && (forall i :: 0 < i < |gaps| - 1 ==> gaps[i] != "")
  }

  /** The last value printed under a key, or nothing. */
  function LastValue(fields: seq<Field>, key: string): string {
    if fields == [] then ""
    else
      var last := fields[|fields| - 1];
      if last.Field? && Trim(last.key) == key then Trim(last.value) else LastValue(fields[..|fields| - 1], key)
  }

  lemma {:induction false} SkipGap(current: string, gap: string, rest: string)
    requires AllSeparators(gap)
    ensures FieldsAfter(current, gap + rest) ==
              if gap == "" then FieldsAfter(current, rest) else OneOrNone(current) + FieldsAfter("", rest)
    decreases |gap|
  {
    if gap == "" {
      assert gap + rest == rest;
    } else {
      assert (gap + rest)[1..] == gap[1..] + rest;
      SkipGap("", gap[1..], rest);
    }
  }

  lemma {:induction false} TakeField(current: string, text: string, rest: string)
    requires SeparatorFree(text)
    ensures FieldsAfter(current, text + rest) == FieldsAfter(current + text, rest)
    decreases |text|
  {
    if text == "" {
      assert text + rest == rest && current + text == current;
    } else {
      assert (text + rest)[1..] == text[1..] + rest;
      TakeField(current + [text[0]], text[1..], rest);
      assert current + [text[0]] + text[1..] == current + text;
    }
  }

  function Texts(fields: seq<Field>): seq<string> {
    if fields == [] then [] else [Text(fields[0])] + Texts(fields[1..])
  }

  lemma TextIsSeparatorFree(f: Field)
    requires Printable(f)
    ensures SeparatorFree(Text(f)) && Text(f) != ""
  {}

  lemma {:induction false} FieldsOfPrint(current: string, fields: seq<Field>, gaps: seq<string>)
    requires |gaps| == |fields| + 1 && ProperGaps(gaps)
    requires forall f :: f in fields ==> Printable(f)
    requires current != "" && fields != [] ==> gaps[0] != ""
    ensures FieldsAfter(current, Print(fields, gaps)) == OneOrNone(current) + Texts(fields)
    decreases |fields|
  {
    if fields == [] {
      assert gaps[0] + "" == gaps[0];
      SkipGap(current, gaps[0], "");
      assert OneOrNone(current) + [] == OneOrNone(current);
    } else {
      var f, rest := fields[0], Print(fields[1..], gaps[1..]);
      assert Print(fields, gaps) == gaps[0] + (Text(f) + rest);
      SkipGap(current, gaps[0], Text(f) + rest);
      TextIsSeparatorFree(f);
      hide Text;
      TakeField("", Text(f), rest);
      assert "" + Text(f) == Text(f);
      assert forall i :: 0 <= i < |gaps| - 1 ==> gaps[1..][i] == gaps[i + 1];
      FieldsOfPrint(Text(f), fields[1..], gaps[1..]);
      assert OneOrNone(current) + ([Text(f)] + Texts(fields[1..])) == OneOrNone(current) + Texts(fields);
    }
  }

  lemma BareHasNoEquals(f: Field)
    requires Printable(f) && f.Bare?
    ensures FirstEquals(Text(f)) == |Text(f)|
  {}

  lemma FirstEqualsOfText(f: Field)
    requires Printable(f) && f.Field?
    ensures FirstEquals(Text(f)) == |f.key|
    ensures Text(f)[..|f.key|] == f.key && Text(f)[|f.key| + 1..] == f.value
  {
    var i := FirstEquals(Text(f));
    assert Text(f)[|f.key|] == '=';
    assert forall j :: 0 <= j < |f.key| ==> Text(f)[j] == f.key[j];
  }

  lemma {:induction false} TextsFromEnd(fields: seq<Field>)
    requires fields != []
    ensures |Texts(fields)| == |fields|
    ensures Texts(fields)[..|fields| - 1] == Texts(fields[..|fields| - 1])
    ensures Texts(fields)[|fields| - 1] == Text(fields[|fields| - 1])
  {
    if |fields| > 1 {
      TextsFromEnd(fields[1..]);
      assert fields[1..][..|fields| - 2] == fields[..|fields| - 1][1..];
    }
  }

  lemma {:induction false} AbsorbTexts(fields: seq<Field>)
    requires forall f :: f in fields ==> Printable(f)
    ensures AbsorbAll(Texts(fields)) == (LastValue(fields, "traddr"), LastValue(fields, "trsvcid"))
    decreases |fields|
  {
    if fields != [] {
      var init, f := fields[..|fields| - 1], fields[|fields| - 1];
      TextsFromEnd(fields);
      AbsorbTexts(init);
      if f.Field? {
        FirstEqualsOfText(f);
      } else {
        BareHasNoEquals(f);
      }
    }
  }

  /** Parsing a printed address gives the last `traddr` and the last `trsvcid`, whatever other
      fields and words without '=' surround them and however commas and spaces separate them. */
  lemma ParseInvertsPrint(fields: seq<Field>, gaps: seq<string>)
    requires |gaps| == |fields| + 1 && ProperGaps(gaps)
    requires forall f :: f in fields ==> Printable(f)
    ensures ParseAddress(Print(fields, gaps)) == (LastValue(fields, "traddr"), LastValue(fields, "trsvcid"))
  {
    hide Print, LastValue, AbsorbAll, Texts, FieldsAfter, ProperGaps, Printable;
    FieldsOfPrint("", fields, gaps);
    AbsorbTexts(fields);
    assert [] + Texts(fields) == Texts(fields);
  }

  /** The characters with the Unicode property White_Space. */
  const WHITE_SPACE: set<char> := {
    '\U{0009}', '\U{000A}', '\U{000B}', '\U{000C}', '\U{000D}', '\U{0020}', '\U{0085}', '\U{00A0}', '\U{1680}',
    '\U{2000}', '\U{2001}', '\U{2002}', '\U{2003}', '\U{2004}', '\U{2005}', '\U{2006}', '\U{2007}', '\U{2008}',
    '\U{2009}', '\U{200A}', '\U{2028}', '\U{2029}', '\U{202F}', '\U{205F}', '\U{3000}'
  }

  lemma SpaceIsWhiteSpace(c: char)
    ensures IsSpace(c) <==> c in WHITE_SPACE
  {}

  lemma {:induction false} TrimLeftTakes(s: string) returns (i: nat)
    ensures i <= |s| && TrimLeft(s) == s[i..]
    ensures forall n :: 0 <= n < i ==> s[n] in WHITE_SPACE
    ensures i < |s| ==> s[i] !in WHITE_SPACE
  {
    if s != "" { SpaceIsWhiteSpace(s[0]); }
    hide IsSpace;
    if s != "" && IsSpace(s[0]) {
      var j := TrimLeftTakes(s[1..]);
      i := j + 1;
      assert s[1..][j..] == s[i..];
      assert forall n :: 0 < n < i ==> s[n] == s[1..][n - 1];
    } else {
      i := 0;
    }
  }

  lemma {:induction false} TrimRightTakes(s: string) returns (i: nat)
    ensures i <= |s| && TrimRight(s) == s[..i]
    ensures forall n :: i <= n < |s| ==> s[n] in WHITE_SPACE
    ensures i > 0 ==> s[i - 1] !in WHITE_SPACE
  {
    if s != "" { SpaceIsWhiteSpace(s[|s| - 1]); }
    hide IsSpace;
    if s != "" && IsSpace(s[|s| - 1]) {
      var init := s[..|s| - 1];
      i := TrimRightTakes(init);
      assert init[..i] == s[..i];
      assert forall n :: i <= n < |init| ==> s[n] == init[n];
    } else {
      i := |s|;
      assert s[..i] == s;
    }
  }

  /** Trimming takes white space off both ends and nothing else, and leaves none there. */
  lemma TrimTakesEnds(s: string) returns (i: nat, j: nat)
    ensures i <= j <= |s| && Trim(s) == s[i..j]
    ensures forall n :: 0 <= n < i || j <= n < |s| ==> s[n] in WHITE_SPACE
    ensures i < j ==> s[i] !in WHITE_SPACE && s[j - 1] !in WHITE_SPACE
  {
    i := TrimLeftTakes(s);
    var rest := s[i..];
    var k := TrimRightTakes(rest);
    j := i + k;
    assert rest[..k] == s[i..j];
    assert forall n :: i <= n < |s| ==> s[n] == rest[n - i];
    hide TrimLeft, TrimRight;
  }

  predicate Trimmed(s: string) {
    s == "" || (!IsSpace(s[0]) && !IsSpace(s[|s| - 1]))
  }

  lemma TrimmedIsKept(s: string)
    requires Trimmed(s)
    ensures Trim(s) == s
  {}

  /** The form the kernel prints: an address and a port with no surrounding white space, the
      address possibly an IPv6 one, come back unchanged. */
  lemma AddressAndPortRoundTrip(ip: string, port: string, gap: string)
    requires SeparatorFree(ip) && SeparatorFree(port) && Trimmed(ip) && Trimmed(port)
    requires gap != "" && AllSeparators(gap)
    ensures ParseAddress("traddr=" + ip + gap + "trsvcid=" + port) == (ip, port)
  {
    hide ParseAddress, Print, LastValue, Trim, ProperGaps, Printable, Trimmed;
    var f, g := Field("traddr", ip), Field("trsvcid", port);
    TwoPrintable(ip, port, gap);
    PrintTwo(f, g, gap);
    ParseInvertsPrint([f, g], ["", gap, ""]);
    LastOfTwo(ip, port);
    assert "traddr" + "=" == "traddr=" && "trsvcid" + "=" == "trsvcid=";
    assert Text(f) + gap + Text(g) == "traddr=" + ip + gap + "trsvcid=" + port;
  }

  lemma TwoPrintable(ip: string, port: string, gap: string)
    requires SeparatorFree(ip) && SeparatorFree(port) && gap != "" && AllSeparators(gap)
    ensures ProperGaps(["", gap, ""])
    ensures forall h :: h in [Field("traddr", ip), Field("trsvcid", port)] ==> Printable(h)
  {}

  lemma PrintTwo(f: Field, g: Field, gap: string)
    ensures Print([f, g], ["", gap, ""]) == Text(f) + gap + Text(g)
  {
    hide Text;
    assert [f, g][1..] == [g] && ["", gap, ""][1..] == [gap, ""];
    assert [g][1..] == [] && [gap, ""][1..] == [""];
    assert Print([g], [gap, ""]) == gap + Text(g);
  }

  lemma LastOfTwo(ip: string, port: string)
    requires Trimmed(ip) && Trimmed(port)
    ensures LastValue([Field("traddr", ip), Field("trsvcid", port)], "traddr") == ip
    ensures LastValue([Field("traddr", ip), Field("trsvcid", port)], "trsvcid") == port
  {
    var f, g := Field("traddr", ip), Field("trsvcid", port);
    TrimmedIsKept(ip);
    TrimmedIsKept(port);
    TrimmedIsKept("traddr");
    TrimmedIsKept("trsvcid");
    hide Trim, Trimmed;
    assert [f, g][..1] == [f];
  }

  predicate Graphic(s: string) {
    forall i :: 0 <= i < |s| ==> '!' <= s[i] <= '~' && s[i] != ','
  }

  /** Any address and port of visible ASCII characters without a comma come back, in both
      documented forms. */
  lemma DocumentedForms(ip: string, port: string)
    requires Graphic(ip) && Graphic(port)
    ensures ParseAddress("traddr=" + ip + " " + "trsvcid=" + port) == (ip, port)
    ensures ParseAddress("traddr=" + ip + "," + "trsvcid=" + port) == (ip, port)
  {
    AddressAndPortRoundTrip(ip, port, " ");
    AddressAndPortRoundTrip(ip, port, ",");
  }

  /** The documented examples. */
  lemma DocumentedAddresses()
    ensures ParseAddress("traddr=10.42.2.18 trsvcid=20006") == ("10.42.2.18", "20006")
    ensures ParseAddress("traddr=10.42.2.18,trsvcid=20006") == ("10.42.2.18", "20006")
    ensures ParseAddress("traddr=fd00::1 trsvcid=20006") == ("fd00::1", "20006")
  {
    SpaceForm();
    CommaForm();
    ColonForm();
    hide ParseAddress;
  }

  lemma SpaceForm()
    ensures ParseAddress("traddr=10.42.2.18 trsvcid=20006") == ("10.42.2.18", "20006")
  {
    hide ParseAddress;
    DocumentedForms("10.42.2.18", "20006");
    assert "traddr=" + "10.42.2.18" + " " + "trsvcid=" + "20006" == "traddr=10.42.2.18 trsvcid=20006";
  }

  lemma CommaForm()
    ensures ParseAddress("traddr=10.42.2.18,trsvcid=20006") == ("10.42.2.18", "20006")
  {
    hide ParseAddress;
    DocumentedForms("10.42.2.18", "20006");
    assert "traddr=" + "10.42.2.18" + "," + "trsvcid=" + "20006" == "traddr=10.42.2.18,trsvcid=20006";
  }

  lemma ColonForm()
    ensures ParseAddress("traddr=fd00::1 trsvcid=20006") == ("fd00::1", "20006")
  {
    hide ParseAddress;
    DocumentedForms("fd00::1", "20006");
    assert "traddr=" + "fd00::1" + " " + "trsvcid=" + "20006" == "traddr=fd00::1 trsvcid=20006";
  }
}
