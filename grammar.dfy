/** The two argument grammars `main` checks with `sscanf`:
    - `-s`: `"%d%c"` must convert exactly one item, so the argument is an
      integer with nothing after it;
    - `-c`: `"%256[^:]:%d%c"` must convert exactly two items, so the
      argument is 1 to 256 characters other than ':', then ':', then an
      integer with nothing after it.
    The integer is read as `%d` reads it in the C locale: leading white
    space, an optional sign, one or more decimal digits. */
module Grammar {

  datatype Option<T> = None | Some(value: T)

  /** `isspace` in the C locale. */
  predicate IsSpace(c: char)
  {
    c == ' ' || '\t' <= c <= '\r'
  }

  predicate IsDigit(c: char)
  {
    '0' <= c <= '9'
  }

  function DigitValue(c: char): nat
    requires IsDigit(c)
  {
    (c as int - '0' as int) as nat
  }

  function DigitChar(d: nat): (c: char)
    requires d < 10
    ensures IsDigit(c) && DigitValue(c) == d
  {
    ('0' as int + d) as char
  }

  /** The value of `s` when it is one or more decimal digits, most
      significant first; None otherwise. */
  function ReadDigits(s: string): Option<nat>
  {
    if s == [] || !IsDigit(s[|s| - 1]) then None
    else if |s| == 1 then Some(DigitValue(s[0]))
    else match ReadDigits(s[..|s| - 1])
      case None => None
      case Some(v) => Some(v * 10 + DigitValue(s[|s| - 1]))
  }

  /** What is left once `%d` has skipped leading white space. */
  function SkipSpaces(s: string): string
  {
    if s != [] && IsSpace(s[0]) then SkipSpaces(s[1..]) else s
  }

  /** An optional sign and one or more digits, with nothing else. */
  function SignedDigits(t: string): Option<int>
  {
    if t != [] && t[0] == '-' then
      match ReadDigits(t[1..])
      case None => None
      case Some(v) => Some(-(v as int))
    else if t != [] && t[0] == '+' then
      match ReadDigits(t[1..])
      case None => None
      case Some(v) => Some(v as int)
    else
      match ReadDigits(t)
      case None => None
      case Some(v) => Some(v as int)
  }

  /** `sscanf(arg, "%d%c", ...) == 1`: the integer `arg` holds when it is
      nothing but an integer, or None. A trailing character of any kind,
      white space included, is taken by `%c` and makes the count 2. */
  function ScanInt(s: string): Option<int>
  {
    SignedDigits(SkipSpaces(s))
  }

  /** Decimal rendering of a natural number, without leading zeros. */
  function ShowNat(n: nat): (s: string)
    ensures s != [] && IsDigit(s[0])
    decreases n
  {
    if n < 10 then [DigitChar(n)] else ShowNat(n / 10) + [DigitChar(n % 10)]
  }

  /** Decimal rendering of an integer, as `%d` prints it. */
  function Show(n: int): string
  {
    if n < 0 then "-" + ShowNat(-n) else ShowNat(n)
  }

  lemma {:induction false} ShowNatRead(n: nat)
    ensures ReadDigits(ShowNat(n)) == Some(n)
    decreases n
  {
    if n >= 10 {
      var s := ShowNat(n);
      assert s[..|s| - 1] == ShowNat(n / 10);
      ShowNatRead(n / 10);
    }
  }

  lemma ScanUnpadded(s: string)
    requires s != [] && !IsSpace(s[0])
    ensures ScanInt(s) == SignedDigits(s)
  {
  }

  /** Every integer written in decimal is accepted as a port and read back. */
  lemma ScanShow(n: int)
    ensures ScanInt(Show(n)) == Some(n)
  {
    if n < 0 {
      var s := "-" + ShowNat(-n);
      assert Show(n) == s && s[0] == '-' && s[1..] == ShowNat(-n);
      ScanUnpadded(s);
      ShowNatRead(-n);
    } else {
      var s := ShowNat(n);
      assert Show(n) == s;
      ScanUnpadded(s);
      ShowNatRead(n);
    }
  }

  /** What `%d` skips is a prefix of white space: the rest is a suffix. */
  lemma {:induction false} SkipSpacesSuffix(s: string)
    ensures |SkipSpaces(s)| <= |s| && SkipSpaces(s) == s[|s| - |SkipSpaces(s)|..]
  {
    if s != [] && IsSpace(s[0]) {
      SkipSpacesSuffix(s[1..]);
    }
  }

  /** An accepted port argument ends in a digit: nothing may trail the
      integer. */
  lemma ScanIntEndsInDigit(s: string)
    ensures ScanInt(s).Some? ==> s != [] && IsDigit(s[|s| - 1])
  {
    var t := SkipSpaces(s);
    SkipSpacesSuffix(s);
    if ScanInt(s).Some? {
      assert t != [] && IsDigit(t[|t| - 1]);
      assert s[|s| - 1] == t[|t| - 1];
    }
  }

  /** White space before the integer is skipped; white space after it is
      a trailing character and makes the argument invalid. */
  lemma ScanSpaces(s: string, c: char)
    requires IsSpace(c)
    ensures ScanInt([c] + s) == ScanInt(s)
    ensures ScanInt(s + [c]) == None
  {
    assert ([c] + s)[1..] == s;
    ScanIntEndsInDigit(s + [c]);
  }

  /** Width of the host field: `%256[^:]`. */
  const HOST_WIDTH: nat := 256

  /** The longest run of characters other than ':' at the head of `s`,
      at most `width` long. */
  function ColonFreePrefix(s: string, width: nat): (h: string)
    ensures |h| <= width && h <= s && ':' !in h
    ensures |h| < width && |h| < |s| ==> s[|h|] == ':'
    decreases width
  {
    if width == 0 || s == [] || s[0] == ':' then []
    else [s[0]] + ColonFreePrefix(s[1..], width - 1)
  }

  /** `sscanf(arg, "%256[^:]:%d%c", domain, &port, ...) == 2`: the host and
      port `arg` names, or None. The host is what `%256[^:]` takes; it must
      be non-empty and be followed by ':' and an integer with nothing after
      it. */
  function ScanHostPort(s: string): Option<(string, int)>
  {
    var h := ColonFreePrefix(s, HOST_WIDTH);
    if h == [] || |h| == |s| || s[|h|] != ':' then None
    else match ScanInt(s[|h| + 1..])
      case None => None
      case Some(p) => Some((h, p))
  }

  /** An accepted address is a host of 1 to 256 characters without ':',
      then ':', then an accepted port: the input is exactly those parts. */
  lemma ScanHostPortParts(s: string)
    ensures ScanHostPort(s).Some? ==>
              var h := ScanHostPort(s).value.0;
              1 <= |h| <= HOST_WIDTH && ':' !in h &&
              |h| < |s| && s[..|h|] == h && s[|h|] == ':' &&
              ScanInt(s[|h| + 1..]) == Some(ScanHostPort(s).value.1)
  {
  }

  /** The host field of `h + ":" + rest` is exactly `h` when `h` is short
      enough and free of ':'. */
  lemma {:induction false} HostFieldOf(h: string, rest: string, width: nat)
    requires |h| <= width && ':' !in h
    ensures ColonFreePrefix(h + ":" + rest, width) == h
    decreases width
  {
    if h != [] {
      assert (h + ":" + rest)[1..] == h[1..] + ":" + rest;
      HostFieldOf(h[1..], rest, width - 1);
    }
  }

  /** `host:port` is accepted, and read back as the same host and port,
      exactly when the host has 1 to 256 characters and no ':'. */
  lemma ScanHostPortShow(h: string, p: int)
    ensures ScanHostPort(h + ":" + Show(p)) == Some((h, p)) <==> 1 <= |h| <= HOST_WIDTH && ':' !in h
  {
    var s := h + ":" + Show(p);
    if 1 <= |h| <= HOST_WIDTH && ':' !in h {
      HostFieldOf(h, Show(p), HOST_WIDTH);
      assert s[|h| + 1..] == Show(p);
      ScanShow(p);
    } else {
      ScanHostPortParts(s);
    }
  }

  /** A host with no port is rejected. */
  lemma HostAloneRejected(h: string)
    requires ':' !in h
    ensures ScanHostPort(h) == None
  {
  }
}
