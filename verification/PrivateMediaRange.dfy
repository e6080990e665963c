/** One byte range of a private object (private-media-range.ts; section 14.1.2 of RFC 9110). */
module PrivateMediaRange {
  import opened Digits
  import opened Wrappers

  datatype Range = Range(offset: nat, length: nat)

  const MAX_SAFE_INTEGER: nat := 9007199254740991

  /** The white space a JavaScript trim removes. */
  predicate IsSpace(c: char) {
    || c in "\t\n\r \U{B}\U{C}\U{A0}\U{1680}\U{2028}\U{2029}\U{202F}\U{205F}\U{3000}\U{FEFF}"
    || '\U{2000}' <= c <= '\U{200A}'
  }

  /** The white space and line ends of sections 12.2 and 12.3 of ECMA-262, by code point. */
  lemma {:induction false} SpaceIff(c: char)
    ensures IsSpace(c) <==>
            || 0x09 <= c as int <= 0x0D || c as int == 0x20 || c as int == 0xA0 || c as int == 0x1680
            || 0x2000 <= c as int <= 0x200A || c as int in {0x2028, 0x2029, 0x202F, 0x205F, 0x3000, 0xFEFF}
  {
    var spaces := "\t\n\r \U{B}\U{C}\U{A0}\U{1680}\U{2028}\U{2029}\U{202F}\U{205F}\U{3000}\U{FEFF}";
    assert spaces[0] == '\t' && spaces[1] == '\n' && spaces[2] == '\r' && spaces[3] == ' ';
    assert spaces[4] == '\U{B}' && spaces[5] == '\U{C}' && spaces[6] == '\U{A0}' && spaces[7] == '\U{1680}';
    assert spaces[8] == '\U{2028}' && spaces[9] == '\U{2029}' && spaces[10] == '\U{202F}' && spaces[11] == '\U{205F}';
    assert spaces[12] == '\U{3000}' && spaces[13] == '\U{FEFF}';
  }

  function TrimLeft(s: string): string {
    if s != "" && IsSpace(s[0]) then TrimLeft(s[1..]) else s
  }

  function TrimRight(s: string): string {
    if s != "" && IsSpace(s[|s| - 1]) then TrimRight(s[..|s| - 1]) else s
  }

  function Trim(s: string): string {
    TrimRight(TrimLeft(s))
  }

  /** The two digit groups of `bytes=<digits>-<digits>`. */
  function MatchHeader(header: string): Option<(string, string)> {
    var t := Trim(header);
    if "bytes=" <= t then
      var rest := t[6..];
      var n := DigitRun(rest);
      if n < |rest| && rest[n] == '-' && AllDigits(rest[n + 1..]) then Some((rest[..n], rest[n + 1..])) else None
    else None
  }

  /** Decimal digits as a number; from 2^53 on the original's double is no safe integer. */
  function Integer(digits: string): Option<nat>
    requires AllDigits(digits)
  {
    if Value(digits) <= MAX_SAFE_INTEGER then Some(Value(digits)) else None
  }

  function Min(a: nat, b: nat): nat {
    if a <= b then a else b
  }

  lemma {:induction false} MatchDigits(header: string)
    ensures MatchHeader(header).Some? ==> AllDigits(MatchHeader(header).value.0) && AllDigits(MatchHeader(header).value.1)
  {
  }

  /** The range to read, or none when the header is malformed, out of reach or overflowing. */
  function Resolve(header: string, size: nat): Option<Range> {
    MatchDigits(header);
    var parts :- MatchHeader(header);
    var (a, b) := parts;
    if size == 0 || (a == "" && b == "") then None
    else if a == "" then
      var suffix :- Integer(b);
      if suffix == 0 then None else Some(Range(size - Min(suffix, size), Min(suffix, size)))
    else
      var start :- Integer(a);
      var end :- if b == "" then Some(size - 1) else Integer(b);
      if start >= size || end < start then None else Some(Range(start, Min(end, size - 1) - start + 1))
  }

  // ----- Grammar ---------------------------------------------------------------------------

  predicate Denotes(header: string, a: string, b: string) {
    AllDigits(a) && AllDigits(b) && Trim(header) == "bytes=" + a + "-" + b
  }

  /** The matcher finds exactly the headers of this shape, and the digit groups are unique. */
  lemma {:induction false} MatchIff(header: string, a: string, b: string)
    ensures MatchHeader(header) == Some((a, b)) <==> Denotes(header, a, b)
  {
    var t := Trim(header);
    if Denotes(header, a, b) {
      assert t == "bytes=" + (a + ("-" + b));
      assert t[6..] == a + ("-" + b);
      DigitRunExact(a, "-" + b);
    }
    if MatchHeader(header) == Some((a, b)) {
      var rest := t[6..];
      assert rest == rest[..|a|] + [rest[|a|]] + rest[|a| + 1..];
      assert t == t[..6] + rest;
      assert t[..6] == "bytes=";
    }
  }

  predicate Blank(s: string) {
    forall i :: 0 <= i < |s| ==> IsSpace(s[i])
  }

  lemma {:induction false} TrimRightPadded(s: string, pad: string)
    requires Blank(pad) && (s == "" || !IsSpace(s[|s| - 1]))
    ensures TrimRight(s + pad) == s
    decreases pad
  {
    if pad == "" {
      assert s + pad == s;
    } else {
      TrimRightPadded(s, pad[..|pad| - 1]);
      assert (s + pad)[..|s + pad| - 1] == s + pad[..|pad| - 1];
    }
  }

  lemma {:induction false} TrimLeftBlank(pad: string)
    requires Blank(pad)
    ensures TrimLeft(pad) == ""
    decreases pad
  {
    if pad != "" {
      TrimLeftBlank(pad[1..]);
    }
  }

  /** Surrounding white space is dropped, and nothing else. */
  lemma {:induction false} TrimPadded(left: string, s: string, right: string)
    requires Blank(left) && Blank(right)
    requires s != "" ==> !IsSpace(s[0]) && !IsSpace(s[|s| - 1])
    ensures Trim(left + s + right) == s
    decreases left
  {
    hide IsSpace;
    if left != "" {
      TrimPadded(left[1..], s, right);
      assert (left + s + right)[1..] == left[1..] + s + right;
    } else if s == "" {
      assert left + s + right == right;
      TrimLeftBlank(right);
    } else {
      assert left + s + right == s + right;
      TrimRightPadded(s, right);
    }
  }

  // ----- Meaning ---------------------------------------------------------------------------

  /** Byte positions a range specifier asks for, cut to the object. */
  ghost predicate Selects(a: string, b: string, size: nat, p: int)
    requires AllDigits(a) && AllDigits(b)
  {
    && 0 <= p < size
    && if a == "" then b != "" && p >= size - Value(b)
       else Value(a) <= p && (b == "" || p <= Value(b))
  }

  predicate Safe(a: string, b: string)
    requires AllDigits(a) && AllDigits(b)
  {
    Value(a) <= MAX_SAFE_INTEGER && Value(b) <= MAX_SAFE_INTEGER
  }

  ghost predicate Satisfiable(a: string, b: string, size: nat)
    requires AllDigits(a) && AllDigits(b)
  {
    exists p :: Selects(a, b, size, p)
  }

  /** A range given is the positions asked for, cut to the object; it is never empty. */
  lemma {:induction false} RangeIsSelection(header: string, size: nat, a: string, b: string)
    requires Denotes(header, a, b) && Resolve(header, size).Some?
    ensures var r := Resolve(header, size).value;
            r.length > 0 && forall p :: Selects(a, b, size, p) <==> r.offset <= p < r.offset + r.length
  {
    MatchIff(header, a, b);
  }

  /** A well-formed header of safe numbers that asks for some existing byte. */
  ghost predicate Givable(header: string, size: nat) {
    exists a, b :: Denotes(header, a, b) && Safe(a, b) && Satisfiable(a, b, size)
  }

  /** A range is given exactly for a well-formed header of safe numbers that asks for some existing byte. */
  lemma {:induction false} ResolveIff(header: string, size: nat)
    ensures Resolve(header, size).Some? <==> Givable(header, size)
  {
    if Resolve(header, size).Some? {
      var (a, b) := MatchHeader(header).value;
      MatchIff(header, a, b);
      RangeIsSelection(header, size, a, b);
      assert Selects(a, b, size, Resolve(header, size).value.offset);
      assert Value("") == 0;
      assert Safe(a, b);
    }
    if a, b :| Denotes(header, a, b) && Safe(a, b) && Satisfiable(a, b, size) {
      MatchIff(header, a, b);
      var p :| Selects(a, b, size, p);
    }
  }
}
