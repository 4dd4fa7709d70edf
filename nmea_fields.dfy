/** What the tokenizer resolves on a sentence that is laid out the way a
    format expects: literal bytes that match, fields that each end at the
    byte that follows their conversion letter, fixed-width digit fields.
    The sentence decoders' properties are built from these. */
module NmeaFields {
  import opened NmeaTypes
  import opened NmeaScan

  /** The format holds, from index `fi` to `fe`, a run of width-less
      specifiers: `%`, conversion letter `convs[i]`, then the literal
      `seps[i]` that ends the field (`"%s,%f,%C*"` has convs `"sfC"` and
      seps `",,*"`). */
  predicate FmtItems(fmt: seq<Byte>, fi: nat, convs: seq<Byte>, seps: seq<Byte>, fe: nat)
    requires |convs| == |seps|
    decreases |convs|
  {
    if convs == [] then fe == fi
    else fi + 3 <= |fmt| && fmt[fi] == '%' && fmt[fi + 1] == convs[0] && fmt[fi + 2] == seps[0] &&
         FmtItems(fmt, fi + 3, convs[1..], seps[1..], fe)
  }

  /** The format text of a run of fields: `%`, the conversion and the
      separator, for each field in turn. */
  function Items(convs: seq<Byte>, seps: seq<Byte>): (r: seq<Byte>)
    requires |convs| == |seps|
    ensures |r| == 3 * |convs|
    decreases |convs|
  {
    if convs == [] then [] else ['%', convs[0], seps[0]] + Items(convs[1..], seps[1..])
  }

  /** The text `Items` builds, placed after `pre`, is read back as that run. */
  lemma {:induction false} ItemsLaid(pre: seq<Byte>, convs: seq<Byte>, seps: seq<Byte>, post: seq<Byte>)
    requires |convs| == |seps|
    ensures FmtItems(pre + Items(convs, seps) + post, |pre|, convs, seps, |pre| + 3 * |convs|)
    decreases |convs|
  {
    if convs != [] {
      var fmt := pre + Items(convs, seps) + post;
      var pre' := pre + ['%', convs[0], seps[0]];
      assert fmt == pre' + Items(convs[1..], seps[1..]) + post;
      ItemsLaid(pre', convs[1..], seps[1..], post);
    }
  }

  /** The input holds, from index `pos` to `pe`, the tokens `toks`, each
      followed by its separator. */
  predicate Laid(buf: seq<Byte>, pos: nat, toks: seq<seq<Byte>>, seps: seq<Byte>, pe: nat)
    requires |toks| == |seps|
    decreases |toks|
  {
    if toks == [] then pe == pos
    else At(buf, pos, toks[0]) && pos + |toks[0]| < |buf| && buf[pos + |toks[0]|] == seps[0] &&
         Laid(buf, pos + |toks[0]| + 1, toks[1..], seps[1..], pe)
  }

  /** The input text of a run of tokens, each followed by its separator. */
  function Lay(toks: seq<seq<Byte>>, seps: seq<Byte>): seq<Byte>
    requires |toks| == |seps|
    decreases |toks|
  {
    if toks == [] then [] else toks[0] + [seps[0]] + Lay(toks[1..], seps[1..])
  }

  /** The first field of a laid-out run, split off. */
  lemma LaySplit(pre: seq<Byte>, toks: seq<seq<Byte>>, seps: seq<Byte>, post: seq<Byte>)
    requires |toks| == |seps| && toks != []
    ensures pre + Lay(toks, seps) + post == pre + toks[0] + [seps[0]] + Lay(toks[1..], seps[1..]) + post
    ensures |Lay(toks, seps)| == |toks[0]| + 1 + |Lay(toks[1..], seps[1..])|
  {
    var rest := Lay(toks[1..], seps[1..]);
    assert Lay(toks, seps) == toks[0] + [seps[0]] + rest;
    assert pre + (toks[0] + [seps[0]] + rest) == pre + toks[0] + [seps[0]] + rest;
  }

  /** A token placed after `pre` and followed by `c` is found there. */
  lemma PlacedAt(pre: seq<Byte>, t: seq<Byte>, c: Byte, rest: seq<Byte>, post: seq<Byte>)
    ensures var buf := pre + t + [c] + rest + post;
      At(buf, |pre|, t) && |pre| + |t| < |buf| && buf[|pre| + |t|] == c
  {
  }

  /** The text `Lay` builds, placed after `pre`, is read back as that run. */
  lemma {:induction false} LayLaid(pre: seq<Byte>, toks: seq<seq<Byte>>, seps: seq<Byte>, post: seq<Byte>)
    requires |toks| == |seps|
    ensures Laid(pre + Lay(toks, seps) + post, |pre|, toks, seps, |pre| + |Lay(toks, seps)|)
    decreases |toks|
  {
    if toks != [] {
      var pre' := pre + toks[0] + [seps[0]];
      var rest := Lay(toks[1..], seps[1..]);
      LaySplit(pre, toks, seps, post);
      PlacedAt(pre, toks[0], seps[0], rest, post);
      LayLaid(pre', toks[1..], seps[1..], post);
      assert |pre'| == |pre| + |toks[0]| + 1;
    }
  }

  /** A field that the scanner delimits as intended: a known conversion, a
      separator that is a literal of the format, a token that does not hold
      its separator, and at most one byte for a `%C`. */
  predicate ItemOk(conv: Byte, sep: Byte, tok: seq<Byte>)
  {
    (IsPointerConv(conv) || IsIntConv(conv)) && sep != NUL && sep != '%' &&
    (forall k :: 0 <= k < |tok| ==> tok[k] != sep) &&
    (IsCharConv(conv) ==> |tok| <= 1)
  }

  /** `ItemOk` for each field of a run. */
  predicate ItemsOk(convs: seq<Byte>, seps: seq<Byte>, toks: seq<seq<Byte>>)
    decreases |toks|
  {
    |convs| == |seps| == |toks| &&
    (toks != [] ==> ItemOk(convs[0], seps[0], toks[0]) && ItemsOk(convs[1..], seps[1..], toks[1..]))
  }

  /** `ItemsOk` from the fields one by one. */
  lemma {:induction false} ItemsOkAll(convs: seq<Byte>, seps: seq<Byte>, toks: seq<seq<Byte>>)
    requires |convs| == |seps| == |toks|
    requires forall i :: 0 <= i < |toks| ==> ItemOk(convs[i], seps[i], toks[i])
    ensures ItemsOk(convs, seps, toks)
    decreases |toks|
  {
    if toks != [] {
      forall i | 0 <= i < |toks| - 1
        ensures ItemOk(convs[1..][i], seps[1..][i], toks[1..][i])
      {
        assert ItemOk(convs[i + 1], seps[i + 1], toks[i + 1]);
      }
      ItemsOkAll(convs[1..], seps[1..], toks[1..]);
      assert ItemOk(convs[0], seps[0], toks[0]);
    }
  }

  /** Each of `convs` is a conversion that stores into a slot. */
  predicate ConvsOk(convs: seq<Byte>)
    decreases |convs|
  {
    convs != [] ==> (IsPointerConv(convs[0]) || IsIntConv(convs[0])) && ConvsOk(convs[1..])
  }

  /** `n` copies of one byte. */
  function Repeat(c: Byte, n: nat): (r: seq<Byte>)
    ensures |r| == n && forall i :: 0 <= i < n ==> r[i] == c
  {
    seq(n, _ => c)
  }

  lemma {:induction false} ConvsOkAppend(a: seq<Byte>, b: seq<Byte>)
    requires ConvsOk(a) && ConvsOk(b)
    ensures ConvsOk(a + b)
    decreases |a|
  {
    if a == [] {
      assert a + b == b;
    } else {
      assert (a + b)[0] == a[0] && (a + b)[1..] == a[1..] + b;
      ConvsOkAppend(a[1..], b);
    }
  }

  lemma {:induction false} ConvsOkRepeat(c: Byte, n: nat)
    requires IsPointerConv(c) || IsIntConv(c)
    ensures ConvsOk(Repeat(c, n))
    decreases n
  {
    if n > 0 {
      assert Repeat(c, n)[1..] == Repeat(c, n - 1);
      ConvsOkRepeat(c, n - 1);
    }
  }

  lemma {:induction false} ItemsConvs(convs: seq<Byte>, seps: seq<Byte>, toks: seq<seq<Byte>>)
    requires ItemsOk(convs, seps, toks)
    ensures ConvsOk(convs)
    decreases |toks|
  {
    if toks != [] {
      ItemsConvs(convs[1..], seps[1..], toks[1..]);
    }
  }

  lemma {:induction false} ItemsAt(convs: seq<Byte>, seps: seq<Byte>, toks: seq<seq<Byte>>, i: nat)
    requires ItemsOk(convs, seps, toks) && i < |toks|
    ensures ItemOk(convs[i], seps[i], toks[i])
    decreases i
  {
    if i > 0 {
      ItemsAt(convs[1..], seps[1..], toks[1..], i - 1);
    }
  }

  lemma {:induction false} ConvsOkAt(convs: seq<Byte>, i: nat)
    requires ConvsOk(convs) && i < |convs|
    ensures IsPointerConv(convs[i]) || IsIntConv(convs[i])
    decreases i
  {
    if i > 0 {
      ConvsOkAt(convs[1..], i - 1);
    }
  }

  /** The `n` slots from `ai` on are present. */
  predicate Open(args: seq<Option<Value>>, ai: nat, n: nat)
    decreases n
  {
    n > 0 ==> ai < |args| && args[ai].Some? && Open(args, ai + 1, n - 1)
  }

  /** Writing a slot before `ai` keeps the slots from `ai` on present. */
  lemma {:induction false} OpenWrite(args: seq<Option<Value>>, ai: nat, n: nat, j: nat, v: Option<Value>)
    requires Open(args, ai, n) && j < ai && j < |args|
    ensures Open(args[j := v], ai, n)
    decreases n
  {
    if n > 0 {
      OpenWrite(args, ai + 1, n - 1, j, v);
    }
  }

  /** `s` occurs in `buf` at index `pos`. */
  predicate At(buf: seq<Byte>, pos: nat, s: seq<Byte>)
  {
    pos + |s| <= |buf| && forall k :: 0 <= k < |s| ==> buf[pos + k] == s[k]
  }

  predicate IsLiteral(lit: seq<Byte>)
  {
    forall k :: 0 <= k < |lit| ==> lit[k] != '%' && lit[k] != NUL
  }

  /** The slot `ai` after a field with token `tok` was stored into it. */
  function Put(args: seq<Option<Value>>, ai: nat, conv: Byte, tok: seq<Byte>): seq<Option<Value>>
    requires ai < |args| && (IsPointerConv(conv) || IsIntConv(conv))
  {
    if tok == [] then args else args[ai := Some(Converted(conv, tok))]
  }

  /** The slots after the fields `toks` were stored from slot `ai` on. */
  function Fill(args: seq<Option<Value>>, ai: nat, convs: seq<Byte>, toks: seq<seq<Byte>>): (r: seq<Option<Value>>)
    requires |convs| == |toks| && ai + |toks| <= |args| && ConvsOk(convs)
    ensures |r| == |args|
    decreases |toks|
  {
    if toks == [] then args else Fill(Put(args, ai, convs[0], toks[0]), ai + 1, convs[1..], toks[1..])
  }

  /** A non-empty token replaces its own slot, an empty one leaves it, and
      the slots outside the run keep their values. */
  lemma {:induction false} FillAt(args: seq<Option<Value>>, ai: nat, convs: seq<Byte>, toks: seq<seq<Byte>>)
    requires |convs| == |toks| && ai + |toks| <= |args| && ConvsOk(convs)
    ensures forall j :: 0 <= j < |args| && !(ai <= j < ai + |toks|) ==> Fill(args, ai, convs, toks)[j] == args[j]
    ensures forall i :: 0 <= i < |toks| ==>
      (IsPointerConv(convs[i]) || IsIntConv(convs[i])) &&
      Fill(args, ai, convs, toks)[ai + i] == if toks[i] == [] then args[ai + i] else Some(Converted(convs[i], toks[i]))
    decreases |toks|
  {
    if toks != [] {
      var args' := Put(args, ai, convs[0], toks[0]);
      FillAt(args', ai + 1, convs[1..], toks[1..]);
      forall i | 1 <= i < |toks|
        ensures (IsPointerConv(convs[i]) || IsIntConv(convs[i])) &&
          Fill(args, ai, convs, toks)[ai + i] == if toks[i] == [] then args[ai + i] else Some(Converted(convs[i], toks[i]))
      {
        assert toks[1..][i - 1] == toks[i] && convs[1..][i - 1] == convs[i];
        assert ai + 1 + (i - 1) == ai + i;
      }
    }
  }

  /** One width-less field and the literal after it. */
  lemma ScanItem(buf: seq<Byte>, fmt: seq<Byte>, fi: nat, pos: nat, ai: nat, count: nat,
                 args: seq<Option<Value>>, conv: Byte, sep: Byte, tok: seq<Byte>)
    requires ItemOk(conv, sep, tok)
    requires fi + 3 <= |fmt| && fmt[fi] == '%' && fmt[fi + 1] == conv && fmt[fi + 2] == sep
    requires At(buf, pos, tok) && pos + |tok| < |buf| && buf[pos + |tok|] == sep
    requires ai < |args| && args[ai].Some?
    ensures Scan(buf, fmt, fi, pos, ai, count, args) ==
      Scan(buf, fmt, fi + 3, pos + |tok| + 1, ai + 1, count + 1, Put(args, ai, conv, tok))
  {
    var e := pos + |tok|;
    assert DigitsEnd(fmt, fi + 1) == fi + 1;
    assert buf[pos..e] == tok;
    if !(IsCharConv(conv) && buf[pos] != sep) {
      assert forall j :: pos <= j < e ==> buf[j] == tok[j - pos];
      FindByteIs(buf, pos, sep, e);
    }
    assert FieldEnd(buf, pos, 0, conv, sep) == Some(e);
    ScanLiteral(buf, fmt, fi + 2, e, ai + 1, count + 1, Put(args, ai, conv, tok));
  }

  /** A point of the scan: format index, input index, argument index,
      count and slots. */
  datatype Pt = Pt(fi: nat, pos: nat, ai: nat, count: nat, args: seq<Option<Value>>)

  /** The scan resumed at `q`. */
  function ScanAt(buf: seq<Byte>, fmt: seq<Byte>, q: Pt): Scanned
  {
    if q.fi <= |fmt| && q.pos <= |buf| then Scan(buf, fmt, q.fi, q.pos, q.ai, q.count, q.args)
    else Scanned(q.count, q.args)
  }

  /** At `q` the format holds `%`, `conv`, `sep` and the input holds `tok`
      then `sep`, with a slot for the field. */
  predicate StepOk(buf: seq<Byte>, fmt: seq<Byte>, q: Pt, conv: Byte, sep: Byte, tok: seq<Byte>)
  {
    ItemOk(conv, sep, tok) &&
    q.fi + 3 <= |fmt| && fmt[q.fi] == '%' && fmt[q.fi + 1] == conv && fmt[q.fi + 2] == sep &&
    At(buf, q.pos, tok) && q.pos + |tok| < |buf| && buf[q.pos + |tok|] == sep &&
    q.ai < |q.args| && q.args[q.ai].Some?
  }

  /** The point after one field and its separator. */
  function Next(q: Pt, conv: Byte, tok: seq<Byte>): Pt
    requires q.ai < |q.args| && (IsPointerConv(conv) || IsIntConv(conv))
  {
    Pt(q.fi + 3, q.pos + |tok| + 1, q.ai + 1, q.count + 1, Put(q.args, q.ai, conv, tok))
  }

  /** The format holds the run `convs`/`seps` from `p.fi` to `e.fi`, the
      input holds the tokens `toks` from `p.pos` to `e.pos`, the run's slots
      are present, and `e` counts the run's fields and holds its writes. */
  predicate RunOk(buf: seq<Byte>, fmt: seq<Byte>, p: Pt, convs: seq<Byte>, seps: seq<Byte>,
                  toks: seq<seq<Byte>>, e: Pt)
  {
    ItemsOk(convs, seps, toks) && ConvsOk(convs) &&
    p.fi <= |fmt| && p.pos <= |buf| &&
    FmtItems(fmt, p.fi, convs, seps, e.fi) && Laid(buf, p.pos, toks, seps, e.pos) &&
    p.ai + |toks| <= |p.args| && Open(p.args, p.ai, |toks|) &&
    e.ai == p.ai + |toks| && e.count == p.count + |toks| && e.args == Fill(p.args, p.ai, convs, toks)
  }

  /** Any `f` that one field does not change is not changed by a run of
      fields either: `f` at the start of the run equals `f` at its end. */
  lemma {:induction false} RunChain(f: Pt -> Scanned, buf: seq<Byte>, fmt: seq<Byte>, p: Pt, convs: seq<Byte>,
                                    seps: seq<Byte>, toks: seq<seq<Byte>>, e: Pt)
    requires RunOk(buf, fmt, p, convs, seps, toks, e)
    requires forall q, conv, sep, tok :: StepOk(buf, fmt, q, conv, sep, tok) ==> f(q) == f(Next(q, conv, tok))
    ensures e.fi <= |fmt| && e.pos <= |buf|
    ensures f(p) == f(e)
    decreases |toks|
  {
    if toks == [] {
      assert e == p;
    } else {
      var n := RunHead(buf, fmt, p, convs, seps, toks, e);
      RunChain(f, buf, fmt, n, convs[1..], seps[1..], toks[1..], e);
    }
  }

  /** `ScanItem` at every point of the scan. */
  lemma ScanSteps(buf: seq<Byte>, fmt: seq<Byte>)
    ensures forall q, conv, sep, tok :: StepOk(buf, fmt, q, conv, sep, tok) ==>
      ScanAt(buf, fmt, q) == ScanAt(buf, fmt, Next(q, conv, tok))
  {
    forall q, conv, sep, tok | StepOk(buf, fmt, q, conv, sep, tok)
      ensures ScanAt(buf, fmt, q) == ScanAt(buf, fmt, Next(q, conv, tok))
    {
      ScanItem(buf, fmt, q.fi, q.pos, q.ai, q.count, q.args, conv, sep, tok);
    }
  }

  /** A run of width-less fields resolves one specifier per field and
      stores each non-empty token in its own slot: the scan resumed at the
      start of the run gives what the scan resumed at its end gives. */
  lemma RunSteps(buf: seq<Byte>, fmt: seq<Byte>)
    ensures forall p, convs, seps, toks, e :: RunOk(buf, fmt, p, convs, seps, toks, e) ==>
      e.fi <= |fmt| && e.pos <= |buf| && ScanAt(buf, fmt, p) == ScanAt(buf, fmt, e)
  {
    forall p, convs, seps, toks, e | RunOk(buf, fmt, p, convs, seps, toks, e)
      ensures e.fi <= |fmt| && e.pos <= |buf| && ScanAt(buf, fmt, p) == ScanAt(buf, fmt, e)
    {
      ScanSteps(buf, fmt);
      RunChain(q => ScanAt(buf, fmt, q), buf, fmt, p, convs, seps, toks, e);
    }
  }

  /** The first field of a run, and the point `n` where the rest of the
      run starts. */
  lemma RunHead(buf: seq<Byte>, fmt: seq<Byte>, p: Pt, convs: seq<Byte>, seps: seq<Byte>,
                toks: seq<seq<Byte>>, e: Pt) returns (n: Pt)
    requires RunOk(buf, fmt, p, convs, seps, toks, e) && toks != []
    ensures StepOk(buf, fmt, p, convs[0], seps[0], toks[0])
    ensures IsPointerConv(convs[0]) || IsIntConv(convs[0])
    ensures n == Next(p, convs[0], toks[0])
    ensures RunOk(buf, fmt, n, convs[1..], seps[1..], toks[1..], e)
  {
    n := Next(p, convs[0], toks[0]);
    ItemsConvs(convs, seps, toks);
    if toks[0] != [] {
      OpenWrite(p.args, p.ai + 1, |toks| - 1, p.ai, Some(Converted(convs[0], toks[0])));
    }
  }

  /** A `%2d` field takes the next two bytes whatever they are. */
  lemma ScanWidth2(buf: seq<Byte>, fmt: seq<Byte>, fi: nat, pos: nat, ai: nat, count: nat,
                   args: seq<Option<Value>>)
    requires fi + 3 <= |fmt| && fmt[fi] == '%' && fmt[fi + 1] == '2' && fmt[fi + 2] == 'd'
    requires pos + 2 <= |buf| && ai < |args| && args[ai].Some?
    ensures Scan(buf, fmt, fi, pos, ai, count, args) ==
      Scan(buf, fmt, fi + 3, pos + 2, ai + 1, count + 1, args[ai := Some(Int(Atoi(buf[pos..pos + 2], 10)))])
  {
    assert DigitsEnd(fmt, fi + 1) == fi + 2;
    assert fmt[fi + 1..fi + 2] == "2";
    assert Atoi("2", 10) == 2;
  }

  /** A width-less `%d` that ends the format takes the rest of the input. */
  lemma ScanLastInt(buf: seq<Byte>, fmt: seq<Byte>, fi: nat, pos: nat, ai: nat, count: nat,
                    args: seq<Option<Value>>)
    requires fi + 2 == |fmt| && fmt[fi] == '%' && fmt[fi + 1] == 'd'
    requires pos < |buf| && ai < |args| && args[ai].Some?
    ensures Scan(buf, fmt, fi, pos, ai, count, args) ==
      Scanned(count + 1, args[ai := Some(Int(Atoi(buf[pos..], 10)))])
  {
    assert DigitsEnd(fmt, fi + 1) == fi + 1;
    assert buf[pos..|buf|] == buf[pos..];
  }

  /** Literal bytes of the format that the input repeats are passed over. */
  lemma {:induction false} ScanLiterals(buf: seq<Byte>, fmt: seq<Byte>, fi: nat, pos: nat, ai: nat, count: nat,
                                        args: seq<Option<Value>>, lit: seq<Byte>)
    requires IsLiteral(lit) && At(fmt, fi, lit) && At(buf, pos, lit)
    ensures Scan(buf, fmt, fi, pos, ai, count, args) ==
      Scan(buf, fmt, fi + |lit|, pos + |lit|, ai, count, args)
    decreases |lit|
  {
    if lit != [] {
      assert fmt[fi + 0] == lit[0] && buf[pos + 0] == lit[0];
      ScanLiteral(buf, fmt, fi, pos, ai, count, args);
      AtNext(fmt, fi, lit);
      AtNext(buf, pos, lit);
      ScanLiterals(buf, fmt, fi + 1, pos + 1, ai, count, args, lit[1..]);
    }
  }

  lemma AtNext(buf: seq<Byte>, pos: nat, s: seq<Byte>)
    requires At(buf, pos, s) && s != []
    ensures At(buf, pos + 1, s[1..])
  {
    forall k | 0 <= k < |s| - 1
      ensures buf[pos + 1 + k] == s[1..][k]
    {
      assert buf[pos + (k + 1)] == s[k + 1];
    }
  }

  /** Nothing past a literal is resolved unless the input repeats it. */
  lemma {:induction false} ScanNeedsLiterals(buf: seq<Byte>, fmt: seq<Byte>, fi: nat, pos: nat, ai: nat,
                                             count: nat, args: seq<Option<Value>>, lit: seq<Byte>)
    requires IsLiteral(lit) && At(fmt, fi, lit) && pos <= |buf|
    requires Scan(buf, fmt, fi, pos, ai, count, args).count > count
    ensures At(buf, pos, lit)
    decreases |lit|
  {
    if lit != [] {
      assert fmt[fi + 0] == lit[0];
      assert pos < |buf| && buf[pos] == lit[0];
      AtNext(fmt, fi, lit);
      ScanNeedsLiterals(buf, fmt, fi + 1, pos + 1, ai, count, args, lit[1..]);
      forall k | 0 <= k < |lit|
        ensures buf[pos + k] == lit[k]
      {
        if k > 0 {
          assert buf[pos + 1 + (k - 1)] == lit[1..][k - 1];
        }
      }
    }
  }

  // ---------------------------------------------------------------------
  // The same steps as facts about every point of the scan
  // ---------------------------------------------------------------------

  /** A `%2d` at `q` with two input bytes and a slot for it. */
  predicate Width2Ok(buf: seq<Byte>, fmt: seq<Byte>, q: Pt)
  {
    q.fi + 3 <= |fmt| && fmt[q.fi] == '%' && fmt[q.fi + 1] == '2' && fmt[q.fi + 2] == 'd' &&
    q.pos + 2 <= |buf| && q.ai < |q.args| && q.args[q.ai].Some?
  }

  function Width2Next(buf: seq<Byte>, q: Pt): Pt
    requires q.pos + 2 <= |buf| && q.ai < |q.args|
  {
    Pt(q.fi + 3, q.pos + 2, q.ai + 1, q.count + 1, q.args[q.ai := Some(Int(Atoi(buf[q.pos..q.pos + 2], 10)))])
  }

  lemma Width2Steps(buf: seq<Byte>, fmt: seq<Byte>)
    ensures forall q :: Width2Ok(buf, fmt, q) ==> ScanAt(buf, fmt, q) == ScanAt(buf, fmt, Width2Next(buf, q))
  {
    forall q | Width2Ok(buf, fmt, q)
      ensures ScanAt(buf, fmt, q) == ScanAt(buf, fmt, Width2Next(buf, q))
    {
      ScanWidth2(buf, fmt, q.fi, q.pos, q.ai, q.count, q.args);
    }
  }

  /** A `%d` that ends the format, at `q`, with input left and a slot. */
  predicate LastIntOk(buf: seq<Byte>, fmt: seq<Byte>, q: Pt)
  {
    q.fi + 2 == |fmt| && fmt[q.fi] == '%' && fmt[q.fi + 1] == 'd' &&
    q.pos < |buf| && q.ai < |q.args| && q.args[q.ai].Some?
  }

  lemma LastIntSteps(buf: seq<Byte>, fmt: seq<Byte>)
    ensures forall q :: LastIntOk(buf, fmt, q) ==>
      ScanAt(buf, fmt, q) == Scanned(q.count + 1, q.args[q.ai := Some(Int(Atoi(buf[q.pos..], 10)))])
  {
    forall q | LastIntOk(buf, fmt, q)
      ensures ScanAt(buf, fmt, q) == Scanned(q.count + 1, q.args[q.ai := Some(Int(Atoi(buf[q.pos..], 10)))])
    {
      ScanLastInt(buf, fmt, q.fi, q.pos, q.ai, q.count, q.args);
    }
  }

  /** The literal `lit` at `q` in both the format and the input. */
  predicate LitsOk(buf: seq<Byte>, fmt: seq<Byte>, q: Pt, lit: seq<Byte>)
  {
    IsLiteral(lit) && At(fmt, q.fi, lit) && At(buf, q.pos, lit)
  }

  function Skip(q: Pt, n: nat): Pt
  {
    q.(fi := q.fi + n, pos := q.pos + n)
  }

  lemma LiteralSteps(buf: seq<Byte>, fmt: seq<Byte>)
    ensures forall q, lit :: LitsOk(buf, fmt, q, lit) ==> ScanAt(buf, fmt, q) == ScanAt(buf, fmt, Skip(q, |lit|))
  {
    forall q, lit | LitsOk(buf, fmt, q, lit)
      ensures ScanAt(buf, fmt, q) == ScanAt(buf, fmt, Skip(q, |lit|))
    {
      ScanLiterals(buf, fmt, q.fi, q.pos, q.ai, q.count, q.args, lit);
    }
  }

  /** The scan stops at `q`: the format or the input is exhausted, or a
      literal byte differs from the input byte. */
  predicate Stops(buf: seq<Byte>, fmt: seq<Byte>, q: Pt)
  {
    q.fi <= |fmt| && q.pos <= |buf| &&
    (FmtAt(fmt, q.fi) == NUL || q.pos == |buf| || (fmt[q.fi] != '%' && buf[q.pos] != fmt[q.fi]))
  }

  lemma StopSteps(buf: seq<Byte>, fmt: seq<Byte>)
    ensures forall q :: Stops(buf, fmt, q) ==> ScanAt(buf, fmt, q) == Scanned(q.count, q.args)
  {
  }

  // ---------------------------------------------------------------------
  // A whole template: a literal header, then a run of fields
  // ---------------------------------------------------------------------

  /** The header and the run of fields, for any `f` that the steps do not
      change. */
  lemma TemplateChain(f: Pt -> Scanned, buf: seq<Byte>, fmt: seq<Byte>, head: seq<Byte>, convs: seq<Byte>,
                      seps: seq<Byte>, toks: seq<seq<Byte>>, pe: nat, args: seq<Option<Value>>)
    requires ConvsOk(convs) && |convs| == |toks| && |toks| <= |args|
    requires IsLiteral(head) && At(fmt, 0, head) && At(buf, 0, head)
    requires RunOk(buf, fmt, Pt(|head|, |head|, 0, 0, args), convs, seps, toks,
                   Pt(|fmt|, pe, |toks|, |toks|, Fill(args, 0, convs, toks)))
    requires forall q, lit :: LitsOk(buf, fmt, q, lit) ==> f(q) == f(Skip(q, |lit|))
    requires forall p, convs, seps, toks, e :: RunOk(buf, fmt, p, convs, seps, toks, e) ==>
      e.fi <= |fmt| && e.pos <= |buf| && f(p) == f(e)
    requires forall q :: Stops(buf, fmt, q) ==> f(q) == Scanned(q.count, q.args)
    ensures f(Pt(0, 0, 0, 0, args)) == Scanned(|toks|, Fill(args, 0, convs, toks))
  {
    var p0 := Pt(0, 0, 0, 0, args);
    assert LitsOk(buf, fmt, p0, head);
    assert Skip(p0, |head|) == Pt(|head|, |head|, 0, 0, args);
    assert Stops(buf, fmt, Pt(|fmt|, pe, |toks|, |toks|, Fill(args, 0, convs, toks)));
  }

  /** A sentence laid out as a template (a header, then fields that each end
      at their separator) scans to the number of fields, with each non-empty
      token stored into its slot. */
  lemma TemplateScan(buf: seq<Byte>, fmt: seq<Byte>, head: seq<Byte>, convs: seq<Byte>,
                     seps: seq<Byte>, toks: seq<seq<Byte>>, pe: nat, args: seq<Option<Value>>)
    requires ConvsOk(convs) && |convs| == |toks| && |toks| <= |args|
    requires IsLiteral(head) && At(fmt, 0, head) && At(buf, 0, head)
    requires RunOk(buf, fmt, Pt(|head|, |head|, 0, 0, args), convs, seps, toks,
                   Pt(|fmt|, pe, |toks|, |toks|, Fill(args, 0, convs, toks)))
    ensures Scanf(buf, fmt, args) == Scanned(|toks|, Fill(args, 0, convs, toks))
  {
    LiteralSteps(buf, fmt);
    RunSteps(buf, fmt);
    StopSteps(buf, fmt);
    TemplateChain(q => ScanAt(buf, fmt, q), buf, fmt, head, convs, seps, toks, pe, args);
  }

  /** The run of a template built by `Items` starts right after its header
      and ends where the format does. */
  lemma TemplateRun(buf: seq<Byte>, head: seq<Byte>, convs: seq<Byte>, seps: seq<Byte>,
                    toks: seq<seq<Byte>>, pe: nat, args: seq<Option<Value>>)
    requires ConvsOk(convs) && At(buf, 0, head)
    requires |convs| == |seps| == |toks| <= |args| && forall j :: 0 <= j < |toks| ==> args[j].Some?
    requires ItemsOk(convs, seps, toks) && Laid(buf, |head|, toks, seps, pe)
    ensures At(head + Items(convs, seps), 0, head)
    ensures RunOk(buf, head + Items(convs, seps), Pt(|head|, |head|, 0, 0, args), convs, seps, toks,
                  Pt(|head + Items(convs, seps)|, pe, |toks|, |toks|, Fill(args, 0, convs, toks)))
  {
    ItemsLaid(head, convs, seps, []);
    assert head + Items(convs, seps) + [] == head + Items(convs, seps);
    OpenAll(args, 0, |toks|);
  }

  /** A sentence that starts with a template's header and then lays out one
      token per field scans, against the header followed by `Items`, to the
      number of fields, each non-empty token stored into its slot. */
  lemma TemplateItems(buf: seq<Byte>, head: seq<Byte>, convs: seq<Byte>, seps: seq<Byte>,
                      toks: seq<seq<Byte>>, pe: nat, args: seq<Option<Value>>)
    requires ConvsOk(convs) && IsLiteral(head) && At(buf, 0, head)
    requires |convs| == |seps| == |toks| <= |args| && forall j :: 0 <= j < |toks| ==> args[j].Some?
    requires ItemsOk(convs, seps, toks) && Laid(buf, |head|, toks, seps, pe)
    ensures Scanf(buf, head + Items(convs, seps), args) == Scanned(|toks|, Fill(args, 0, convs, toks))
  {
    TemplateRun(buf, head, convs, seps, toks, pe, args);
    TemplateScan(buf, head + Items(convs, seps), head, convs, seps, toks, pe, args);
  }

  /** A scan resolves no field unless the input starts with the format's
      literal header. */
  lemma HeadNeeded(buf: seq<Byte>, head: seq<Byte>, rest: seq<Byte>, args: seq<Option<Value>>)
    requires IsLiteral(head)
    ensures Scanf(buf, head + rest, args).count > 0 ==> At(buf, 0, head)
  {
    if Scanf(buf, head + rest, args).count > 0 {
      assert At(head + rest, 0, head);
      ScanNeedsLiterals(buf, head + rest, 0, 0, 0, 0, args, head);
    }
  }

  /** Slots given one by one are present. */
  lemma {:induction false} OpenAll(args: seq<Option<Value>>, ai: nat, n: nat)
    requires ai + n <= |args| && forall j :: ai <= j < ai + n ==> args[j].Some?
    ensures Open(args, ai, n)
    decreases n
  {
    if n > 0 {
      OpenAll(args, ai + 1, n - 1);
    }
  }

  /** strtol of a string of decimal digits is their positional value. */
  lemma AtoiOfDigits(s: seq<Byte>)
    requires AllDigits(s, 10) && |s| < CONVSTR_BUF
    ensures Atoi(s, 10) == DigitsValue(s, 10)
  {
    AtoiIsLeadingDigits([], s, [], 10);
    assert [] + s + [] == s;
  }
}
