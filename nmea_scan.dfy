/** The field tokenizer (nmea_lib.c): `nmea_atoi` and the `scanf`-like
    interpreter `nmea_scanf`.

    The C scanner receives its destinations as a `va_list` of untyped
    pointers. Here they are an ordered list of slots: `None` is a NULL pointer,
    `Some(v)` a destination currently holding `v`; the scanner returns the list
    with the written slots replaced. Pointers read past the end of the list
    read as NULL. */
module NmeaScan {
  import opened NmeaTypes

  /** What a conversion stores: `%c` one byte, `%s` the token (the C adds a
      terminating NUL), `%f` the double that `nmea_atof` gives for the token,
      `%d %i %u %x %X %o` the integer `nmea_atoi` gives. */
  datatype Value = Chr(c: Byte) | Str(s: seq<Byte>) | Real(f: Float) | Int(n: int)

  // ---------------------------------------------------------------------
  // nmea_atoi: strtol over a copy of at most 255 bytes
  // ---------------------------------------------------------------------

  /** The digit value of `b` in any radix up to 36; 36 for a non-digit. */
  function DigitValue(b: Byte): nat
  {
    if '0' <= b <= '9' then b as int - '0' as int
    else if 'a' <= b <= 'z' then b as int - 'a' as int + 10
    else if 'A' <= b <= 'Z' then b as int - 'A' as int + 10
    else 36
  }

  predicate IsRadixDigit(b: Byte, radix: nat)
  {
    DigitValue(b) < radix
  }

  /** strtol's digit loop: folds the leading digits of `s` into `acc`,
      stopping at the first byte that is not a digit of `radix`. */
  function Accumulate(acc: int, s: seq<Byte>, radix: nat): int
    decreases |s|
  {
    if s == [] || !IsRadixDigit(s[0], radix) then acc
    else Accumulate(acc * radix + DigitValue(s[0]), s[1..], radix)
  }

  /** strtol: an optional sign, then the digits up to the first invalid byte. */
  function Strtol(s: seq<Byte>, radix: nat): int
  {
    if |s| > 0 && s[0] == '-' then -Accumulate(0, s[1..], radix)
    else if |s| > 0 && s[0] == '+' then Accumulate(0, s[1..], radix)
    else Accumulate(0, s, radix)
  }

  /** nmea_atoi(str, str_sz, radix): 0 when the text does not fit the
      256-byte staging buffer, strtol of the text otherwise. */
  function Atoi(s: seq<Byte>, radix: nat): (r: int)
    requires 2 <= radix <= 36
    ensures |s| >= CONVSTR_BUF ==> r == 0
    ensures s == [] || s[0] != '-' ==> r >= 0
  {
    if |s| < CONVSTR_BUF then StrtolNonNegative(s, radix); Strtol(s, radix) else 0
  }

  lemma StrtolNonNegative(s: seq<Byte>, radix: nat)
    ensures s == [] || s[0] != '-' ==> Strtol(s, radix) >= 0
  {
    AccumulateNonNegative(0, s, radix);
    if |s| > 0 {
      AccumulateNonNegative(0, s[1..], radix);
    }
  }

  lemma {:induction false} AccumulateNonNegative(acc: int, s: seq<Byte>, radix: nat)
    requires acc >= 0
    ensures Accumulate(acc, s, radix) >= acc
    decreases |s|
  {
    if s != [] && IsRadixDigit(s[0], radix) {
      MulAtLeast(acc, radix);
      AccumulateNonNegative(acc * radix + DigitValue(s[0]), s[1..], radix);
    }
  }

  lemma MulAtLeast(a: nat, b: nat)
    requires b >= 1
    ensures a * b >= a
  {
  }

  predicate AllDigits(s: seq<Byte>, radix: nat)
  {
    forall i :: 0 <= i < |s| ==> IsRadixDigit(s[i], radix)
  }

  function Pow(radix: nat, n: nat): nat
  {
    if n == 0 then 1 else radix * Pow(radix, n - 1)
  }

  /** Positional value of a digit string, most significant digit first:
      the reference that strtol's left fold must agree with. */
  function DigitsValue(s: seq<Byte>, radix: nat): nat
    requires AllDigits(s, radix)
  {
    if s == [] then 0 else DigitValue(s[0]) * Pow(radix, |s[1..]|) + DigitsValue(s[1..], radix)
  }

  lemma {:induction false} AccumulateDigits(acc: int, s: seq<Byte>, rest: seq<Byte>, radix: nat)
    requires AllDigits(s, radix)
    requires rest == [] || !IsRadixDigit(rest[0], radix)
    ensures Accumulate(acc, s + rest, radix) == acc * Pow(radix, |s|) + DigitsValue(s, radix)
    decreases |s|
  {
    if s == [] {
      assert s + rest == rest;
    } else {
      var d := DigitValue(s[0]);
      assert (s + rest)[1..] == s[1..] + rest;
      AccumulateDigits(acc * radix + d, s[1..], rest, radix);
      calc {
        Accumulate(acc, s + rest, radix);
        Accumulate(acc * radix + d, s[1..] + rest, radix);
        (acc * radix + d) * Pow(radix, |s| - 1) + DigitsValue(s[1..], radix);
        { MulAddDistributes(acc * radix, d, Pow(radix, |s| - 1)); }
        acc * radix * Pow(radix, |s| - 1) + d * Pow(radix, |s| - 1) + DigitsValue(s[1..], radix);
        { MulAssociates(acc, radix, Pow(radix, |s| - 1)); }
        acc * Pow(radix, |s|) + DigitsValue(s, radix);
      }
    }
  }

  lemma MulAddDistributes(a: int, b: int, c: int)
    ensures (a + b) * c == a * c + b * c
  {
  }

  lemma MulAssociates(a: int, b: int, c: int)
    ensures a * b * c == a * (b * c)
  {
  }

  /** nmea_atoi returns the positional value of the digits that lead the
      text and ignores everything from the first invalid byte on; a leading
      '-' negates it. */
  lemma AtoiIsLeadingDigits(sign: seq<Byte>, s: seq<Byte>, rest: seq<Byte>, radix: nat)
    requires 2 <= radix <= 36
    requires sign == [] || sign == ['-'] || sign == ['+']
    requires AllDigits(s, radix)
    requires rest == [] || !IsRadixDigit(rest[0], radix)
    requires sign == [] && s == [] ==> rest == [] || (rest[0] != '-' && rest[0] != '+')
    requires |sign + s + rest| < CONVSTR_BUF
    ensures Atoi(sign + s + rest, radix) == if sign == ['-'] then -(DigitsValue(s, radix) as int) else DigitsValue(s, radix)
  {
    AccumulateDigits(0, s, rest, radix);
    if sign != [] {
      assert (sign + s + rest)[1..] == s + rest;
    } else if s != [] {
      assert (sign + s + rest)[0] == s[0];
      assert !(s[0] == '-' || s[0] == '+');
      assert sign + s + rest == s + rest;
    } else {
      assert sign + s + rest == rest;
      if rest != [] {
        assert Accumulate(0, rest, radix) == 0;
      }
    }
  }

  // ---------------------------------------------------------------------
  // The format language
  // ---------------------------------------------------------------------

  /** The format as a C string: a NUL stands past its end. */
  function FmtAt(fmt: seq<Byte>, i: nat): Byte
  {
    if i < |fmt| then fmt[i] else NUL
  }

  predicate IsDigit(b: Byte)
  {
    '0' <= b <= '9'
  }

  /** The end of the run of width digits that starts at `i`. */
  function DigitsEnd(fmt: seq<Byte>, i: nat): (j: nat)
    requires i <= |fmt|
    ensures i <= j <= |fmt|
    ensures forall k :: i <= k < j ==> IsDigit(fmt[k])
    ensures j == |fmt| || !IsDigit(fmt[j])
    decreases |fmt| - i
  {
    if i < |fmt| && IsDigit(fmt[i]) then DigitsEnd(fmt, i + 1) else i
  }

  predicate IsCharConv(b: Byte) { b == 'c' || b == 'C' }
  predicate IsStrConv(b: Byte) { b == 's' || b == 'S' }
  predicate IsRealConv(b: Byte) { b == 'f' || b == 'g' || b == 'G' || b == 'e' || b == 'E' }
  predicate IsIntConv(b: Byte) { b == 'd' || b == 'i' || b == 'u' || b == 'x' || b == 'X' || b == 'o' }

  /** The conversions whose destination the C reads as a char* or double*. */
  predicate IsPointerConv(b: Byte) { IsCharConv(b) || IsStrConv(b) || IsRealConv(b) }

  function Radix(conv: Byte): nat
  {
    if conv == 'x' || conv == 'X' then 16 else if conv == 'o' then 8 else 10
  }

  /** The value a known conversion stores for a non-empty token. */
  function Converted(conv: Byte, tok: seq<Byte>): Value
    requires IsPointerConv(conv) || IsIntConv(conv)
    requires tok != []
  {
    if IsCharConv(conv) then Chr(tok[0])
    else if IsStrConv(conv) then Str(tok)
    else if IsRealConv(conv) then Real(FParsed(tok))
    else Int(Atoi(tok, Radix(conv)))
  }

  // ---------------------------------------------------------------------
  // One field: where its token ends
  // ---------------------------------------------------------------------

  /** memchr: the first occurrence of `c` at or after `from`, or the end. */
  function FindByte(buf: seq<Byte>, from: nat, c: Byte): (k: nat)
    requires from <= |buf|
    ensures from <= k <= |buf|
    ensures forall j :: from <= j < k ==> buf[j] != c
    ensures k < |buf| ==> buf[k] == c
    decreases |buf| - from
  {
    if from == |buf| || buf[from] == c then from else FindByte(buf, from + 1, c)
  }

  /** The first occurrence is unique: any index with the same two
      properties is the one FindByte returns. */
  lemma FindByteIs(buf: seq<Byte>, from: nat, c: Byte, k: nat)
    requires from <= k <= |buf|
    requires forall j :: from <= j < k ==> buf[j] != c
    requires k < |buf| ==> buf[k] == c
    ensures FindByte(buf, from, c) == k
  {
  }

  /** Where the token of a field that starts at `pos` ends, or None when an
      explicit width runs past the input. `next` is the format byte after the
      conversion letter (NUL when the letter ends the format). */
  function FieldEnd(buf: seq<Byte>, pos: nat, width: nat, conv: Byte, next: Byte): (e: Option<nat>)
    requires pos < |buf|
    ensures e.Some? ==> pos <= e.value <= |buf|
    // an explicit width takes exactly that many bytes, or fails
    ensures width > 0 ==> (e.Some? <==> pos + width <= |buf|) && (e.Some? ==> e.value == pos + width)
    // %c without width: one byte, unless that byte is the next format byte
    ensures width == 0 && IsCharConv(conv) && buf[pos] != next ==> e == Some(pos + 1)
    // otherwise: up to the first occurrence of the next format byte, or the end
    ensures width == 0 && !(IsCharConv(conv) && buf[pos] != next) ==>
      e.Some? && (next == NUL ==> e.value == |buf|) &&
      (next != NUL ==> (forall k :: pos <= k < e.value ==> buf[k] != next) &&
                       (e.value < |buf| ==> buf[e.value] == next))
  {
    var w := if width == 0 && IsCharConv(conv) && buf[pos] != next then 1 else width;
    if w != 0 then
      if pos + w <= |buf| then Some(pos + w) else None
    else if next == NUL then Some(|buf|)
    else Some(FindByte(buf, pos, next))
  }

  // ---------------------------------------------------------------------
  // One field: what it stores
  // ---------------------------------------------------------------------

  function ArgAt(args: seq<Option<Value>>, i: nat): Option<Value>
  {
    if i < |args| then args[i] else None
  }

  /** The slot list after a field, the next argument to read, and whether
      the scan goes on. */
  datatype Stored = Stored(more: bool, ai: nat, args: seq<Option<Value>>)

  /** The destination writes of one counted field whose token is `tok`.
      A char/string/double destination is written when the token is
      non-empty; a NULL one makes the C read the next argument as an int*,
      and the scan ends if that one is not NULL and the token is not empty.
      An integer destination is written when it is not NULL and the token is
      not empty; an unknown conversion letter in that case ends the scan. */
  function Store(conv: Byte, tok: seq<Byte>, ai: nat, args: seq<Option<Value>>): Stored
  {
    if IsPointerConv(conv) then
      if ArgAt(args, ai).Some? then
        Stored(true, ai + 1, if tok != [] then args[ai := Some(Converted(conv, tok))] else args)
      else
        Stored(ArgAt(args, ai + 1).None? || tok == [], ai + 2, args)
    else if ArgAt(args, ai).None? || tok == [] then Stored(true, ai + 1, args)
    else if IsIntConv(conv) then Stored(true, ai + 1, args[ai := Some(Converted(conv, tok))])
    else Stored(false, ai + 1, args)
  }

  /** What one counted field writes, family by family: an empty token writes
      nothing and the scan goes on; with a given destination and a token,
      exactly that slot changes, to the token text (%s), its first byte (%c)
      or its value in base 10 (%d %i %u), 16 (%x %X) or 8 (%o); an unknown
      letter writes nothing and ends the scan. */
  lemma StoreWrites(conv: Byte, tok: seq<Byte>, ai: nat, args: seq<Option<Value>>)
    ensures var st := Store(conv, tok, ai, args);
      (tok == [] ==> st.more && st.args == args) &&
      (ArgAt(args, ai).Some? && tok != [] ==>
        st.ai == ai + 1 &&
        (IsPointerConv(conv) || IsIntConv(conv) <==> st.more) &&
        (!st.more ==> st.args == args) &&
        (st.more ==> |st.args| == |args| && (forall j :: 0 <= j < |args| && j != ai ==> st.args[j] == args[j]) &&
                     st.args[ai] == Some(Converted(conv, tok))) &&
        (IsStrConv(conv) ==> st.args[ai] == Some(Str(tok))) &&
        (IsCharConv(conv) ==> st.args[ai] == Some(Chr(tok[0]))) &&
        (conv == 'd' || conv == 'i' || conv == 'u' ==> st.args[ai] == Some(Int(Atoi(tok, 10)))) &&
        (conv == 'x' || conv == 'X' ==> st.args[ai] == Some(Int(Atoi(tok, 16)))) &&
        (conv == 'o' ==> st.args[ai] == Some(Int(Atoi(tok, 8)))))
  {
  }

  // ---------------------------------------------------------------------
  // The whole scan
  // ---------------------------------------------------------------------

  /** The scanner's result: the number of resolved specifiers and the slots. */
  datatype Scanned = Scanned(count: nat, args: seq<Option<Value>>)

  /** The scan from format index `fi` and input index `pos`, having read `ai`
      arguments and resolved `count` specifiers. It stops when the format or
      the input is exhausted, at the first literal that differs from the
      input, at an explicit width that overruns the input, or after a field
      whose store ends the scan. */
  function Scan(buf: seq<Byte>, fmt: seq<Byte>, fi: nat, pos: nat, ai: nat, count: nat,
                args: seq<Option<Value>>): Scanned
    requires fi <= |fmt| && pos <= |buf|
    decreases |fmt| - fi
  {
    if FmtAt(fmt, fi) == NUL || pos == |buf| then Scanned(count, args)
    else if fmt[fi] != '%' then
      if buf[pos] != fmt[fi] then Scanned(count, args)
      else Scan(buf, fmt, fi + 1, pos + 1, ai, count, args)
    else
      var t := DigitsEnd(fmt, fi + 1);
      if FmtAt(fmt, t) == NUL then Scanned(count, args)
      else
        var width: nat := if t > fi + 1 then Atoi(fmt[fi + 1..t], 10) else 0;
        match FieldEnd(buf, pos, width, fmt[t], FmtAt(fmt, t + 1))
        case None => Scanned(count, args)
        case Some(e) =>
          var st := Store(fmt[t], buf[pos..e], ai, args);
          if st.more then Scan(buf, fmt, t + 1, e, st.ai, count + 1, st.args)
          else Scanned(count + 1, st.args)
  }

  /** nmea_scanf(buff, buff_sz, format, ...) as a function of its inputs. */
  function Scanf(buf: seq<Byte>, fmt: seq<Byte>, args: seq<Option<Value>>): Scanned
  {
    Scan(buf, fmt, 0, 0, 0, 0, args)
  }

  // ---------------------------------------------------------------------
  // The scanner as the C writes it: one pass over the format with a state
  // ---------------------------------------------------------------------

  datatype TokType = Compare | Percent | Width

  /** memchr(buf + from, c, |buf| - from), with "not found" as |buf|. */
  method MemChr(buf: seq<Byte>, from: nat, c: Byte) returns (k: nat)
    requires from <= |buf|
    ensures k == FindByte(buf, from, c)
  {
    k := from;
    while k < |buf| && buf[k] != c
      invariant from <= k <= |buf|
      invariant FindByte(buf, from, c) == FindByte(buf, k, c)
    {
      k := k + 1;
    }
  }

  /** The NMEA_TOKS_TYPE step up to the count: the token's end. */
  method TakeField(buf: seq<Byte>, pos: nat, width: nat, conv: Byte, next: Byte) returns (e: Option<nat>)
    requires pos < |buf|
    ensures e == FieldEnd(buf, pos, width, conv, next)
  {
    var w := width;
    if w == 0 && IsCharConv(conv) && buf[pos] != next {
      w := 1;
    }
    if w != 0 {
      if pos + w <= |buf| {
        e := Some(pos + w);
      } else {
        e := None;
      }
    } else if next == NUL {
      e := Some(|buf|);
    } else {
      var k := MemChr(buf, pos, next);
      e := Some(k);
    }
  }

  /** The NMEA_TOKS_TYPE step after the count: the destination writes. */
  method StoreField(conv: Byte, tok: seq<Byte>, ai: nat, args: seq<Option<Value>>)
    returns (more: bool, ai': nat, args': seq<Option<Value>>)
    ensures Stored(more, ai', args') == Store(conv, tok, ai, args)
  {
    more, ai', args' := true, ai, args;
    var target := None;
    if IsCharConv(conv) || IsStrConv(conv) || IsRealConv(conv) {
      target := ArgAt(args', ai');
      if tok != [] && target.Some? {
        if IsCharConv(conv) {
          args' := args'[ai' := Some(Chr(tok[0]))];
        } else if IsStrConv(conv) {
          args' := args'[ai' := Some(Str(tok))];
        } else {
          args' := args'[ai' := Some(Real(FParsed(tok)))];
        }
      }
      ai' := ai' + 1;
    }
    if target.None? {
      target := ArgAt(args', ai');
      var slot := ai';
      ai' := ai' + 1;
      if target.Some? && tok != [] {
        if conv == 'd' || conv == 'i' || conv == 'u' {
          args' := args'[slot := Some(Int(Atoi(tok, 10)))];
        } else if conv == 'x' || conv == 'X' {
          args' := args'[slot := Some(Int(Atoi(tok, 16)))];
        } else if conv == 'o' {
          args' := args'[slot := Some(Int(Atoi(tok, 8)))];
        } else {
          more := false;
        }
      }
    }
  }

  /** The NMEA_TOKS_TYPE state at format index `fi`, the conversion letter
      of the specifier whose width digits are `fmt[begFmt..fi]`: the token's
      end, the count, the destination writes. `stop` is a `goto fail` or
      the end of the scan the store asks for. */
  method TypeStep(buf: seq<Byte>, fmt: seq<Byte>, begFmt: nat, fi: nat, pos: nat, ai: nat, count: nat,
                  args: seq<Option<Value>>)
    returns (stop: bool, pos': nat, ai': nat, count': nat, args': seq<Option<Value>>)
    requires 1 <= begFmt <= fi < |fmt| && fmt[begFmt - 1] == '%' && pos < |buf|
    requires forall k :: begFmt <= k < fi ==> IsDigit(fmt[k])
    requires !IsDigit(fmt[fi]) && fmt[fi] != NUL
    ensures pos' <= |buf|
    ensures stop ==> Scan(buf, fmt, begFmt - 1, pos, ai, count, args) == Scanned(count', args')
    ensures !stop ==> Scan(buf, fmt, begFmt - 1, pos, ai, count, args) ==
                      Scan(buf, fmt, fi + 1, pos', ai', count', args')
  {
    assert DigitsEnd(fmt, begFmt) == fi;
    var width: nat := 0;
    if fi > begFmt {
      width := Atoi(fmt[begFmt..fi], 10);
    }
    var e := TakeField(buf, pos, width, fmt[fi], FmtAt(fmt, fi + 1));
    if e.None? {
      return true, pos, ai, count, args;
    }
    var more;
    more, ai', args' := StoreField(fmt[fi], buf[pos..e.value], ai, args);
    stop, pos', count' := !more, e.value, count + 1;
  }

  /** A literal format byte against the input byte at `pos`. */
  lemma ScanLiteral(buf: seq<Byte>, fmt: seq<Byte>, fi: nat, pos: nat, ai: nat, count: nat,
                    args: seq<Option<Value>>)
    requires fi < |fmt| && fmt[fi] != NUL && fmt[fi] != '%' && pos < |buf|
    ensures Scan(buf, fmt, fi, pos, ai, count, args) ==
      if buf[pos] != fmt[fi] then Scanned(count, args)
      else Scan(buf, fmt, fi + 1, pos + 1, ai, count, args)
  {
  }

  /** The scan ends with nothing more resolved once the format or the input
      runs out, also in the middle of a specifier. */
  lemma ScanRunsOut(buf: seq<Byte>, fmt: seq<Byte>, beg: nat, fi: nat, pos: nat, ai: nat, count: nat,
                    args: seq<Option<Value>>)
    requires 1 <= beg <= fi <= |fmt| && fmt[beg - 1] == '%' && pos <= |buf|
    requires forall k :: beg <= k < fi ==> IsDigit(fmt[k])
    requires FmtAt(fmt, fi) == NUL || pos == |buf|
    ensures Scan(buf, fmt, beg - 1, pos, ai, count, args) == Scanned(count, args)
  {
    if pos < |buf| {
      assert DigitsEnd(fmt, beg) == fi;
    }
  }

  /** The count is raised before any destination is written: a scan that
      resolves nothing more leaves every slot as it was, and the count never
      goes down. */
  lemma {:induction false} CountBeforeWrite(buf: seq<Byte>, fmt: seq<Byte>, fi: nat, pos: nat, ai: nat, count: nat,
                                            args: seq<Option<Value>>)
    requires fi <= |fmt| && pos <= |buf|
    ensures Scan(buf, fmt, fi, pos, ai, count, args).count >= count
    ensures Scan(buf, fmt, fi, pos, ai, count, args).count == count ==> Scan(buf, fmt, fi, pos, ai, count, args).args == args
    decreases |fmt| - fi
  {
    if FmtAt(fmt, fi) == NUL || pos == |buf| {
    } else if fmt[fi] != '%' {
      if buf[pos] == fmt[fi] {
        CountBeforeWrite(buf, fmt, fi + 1, pos + 1, ai, count, args);
      }
    } else {
      var t := DigitsEnd(fmt, fi + 1);
      if FmtAt(fmt, t) != NUL {
        var width: nat := if t > fi + 1 then Atoi(fmt[fi + 1..t], 10) else 0;
        match FieldEnd(buf, pos, width, fmt[t], FmtAt(fmt, t + 1))
        case None =>
        case Some(e) =>
          var st := Store(fmt[t], buf[pos..e], ai, args);
          if st.more {
            CountBeforeWrite(buf, fmt, t + 1, e, st.ai, count + 1, st.args);
          }
      }
    }
  }

  /** nmea_scanf: walks the format once, one byte per iteration, in the
      states COMPARE, PERCENT and WIDTH (the TYPE state never outlives its
      iteration); a `goto fail` is a `break`. */
  method ScanF(buf: seq<Byte>, fmt: seq<Byte>, args: seq<Option<Value>>)
    returns (count: nat, out: seq<Option<Value>>)
    ensures Scanned(count, out) == Scanf(buf, fmt, args)
  {
    ghost var result := Scanf(buf, fmt, args);
    ghost var failed := false;
    ghost var at: nat := 0;   // where the item being read starts in the format
    var fi: nat, pos: nat, ai: nat := 0, 0, 0;
    var tokType := Compare;
    var width: nat, begFmt: nat := 0, 0;   // the width is read in the TYPE step
    count, out := 0, args;
    while fi < |fmt| && fmt[fi] != NUL && pos < |buf|
      invariant fi <= |fmt| && pos <= |buf| && !failed && at <= fi
      invariant Scan(buf, fmt, at, pos, ai, count, out) == result
      invariant tokType == Compare ==> at == fi
      invariant tokType == Percent ==> 1 <= fi && at == fi - 1 && fmt[at] == '%'
      invariant tokType == Width ==>
        1 <= begFmt <= fi && at == begFmt - 1 && fmt[at] == '%' && width == 0 &&
        forall k :: begFmt <= k < fi ==> IsDigit(fmt[k])
      decreases |fmt| - fi
    {
      if tokType == Compare {
        if fmt[fi] == '%' {
          tokType := Percent;
        } else {
          ScanLiteral(buf, fmt, fi, pos, ai, count, out);
          if buf[pos] != fmt[fi] {
            failed := true;
            break;
          }
          pos := pos + 1;
          at := fi + 1;
        }
      } else {
        if tokType == Percent {
          width := 0;
          begFmt := fi;
          tokType := Width;
        }
        if !IsDigit(fmt[fi]) {
          var stop;
          stop, pos, ai, count, out := TypeStep(buf, fmt, begFmt, fi, pos, ai, count, out);
          if stop {
            failed := true;
            break;
          }
          tokType := Compare;
          width := 0;
          at := fi + 1;
        }
      }
      fi := fi + 1;
    }
    if !failed {
      if tokType == Percent {
        ScanRunsOut(buf, fmt, fi, fi, pos, ai, count, out);
      } else if tokType == Width {
        ScanRunsOut(buf, fmt, begFmt, fi, pos, ai, count, out);
      }
    }
  }
}
