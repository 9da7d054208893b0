/** The listing parser: the `format` helper of `backupTimestamps`, which turns
    the text that `ls` prints for one tier directory into the list of integer
    timestamps the backups in that directory are named after. */
module Listing {

  import opened Wrappers

  // ---------------------------------------------------------------------------
  // Characters

  /** JavaScript's `\s` class, which is also the set of characters that
      `String.prototype.trim` strips: the ECMAScript WhiteSpace and
      LineTerminator code points. */
  predicate IsSpace(c: char) {
    var n := c as int;
    n == 0x09 || n == 0x0A || n == 0x0B || n == 0x0C || n == 0x0D || n == 0x20 ||
    n == 0xA0 || n == 0x1680 || (0x2000 <= n <= 0x200A) || n == 0x2028 ||
    n == 0x2029 || n == 0x202F || n == 0x205F || n == 0x3000 || n == 0xFEFF
  }

  predicate IsDigit(c: char) {
    '0' <= c <= '9'
  }

  predicate NoSpace(s: string) {
    forall i :: 0 <= i < |s| ==> !IsSpace(s[i])
  }

  predicate AllSpace(s: string) {
    forall i :: 0 <= i < |s| ==> IsSpace(s[i])
  }

  predicate AllDigits(s: string) {
    forall i :: 0 <= i < |s| ==> IsDigit(s[i])
  }

  // ---------------------------------------------------------------------------
  // String.prototype.trim

  /** Drops the leading white space. */
  function TrimStart(s: string): string {
    if s != [] && IsSpace(s[0]) then TrimStart(s[1..]) else s
  }

  /** Drops the trailing white space. */
  function TrimEnd(s: string): string {
    if s != [] && IsSpace(s[|s| - 1]) then TrimEnd(s[..|s| - 1]) else s
  }

  /** `s.trim()`. */
  function Trim(s: string): string {
    TrimEnd(TrimStart(s))
  }

  /** What `TrimStart` keeps is a suffix of `s` that is empty or starts with a
      non-space, and everything it drops is white space. */
  lemma {:induction false} TrimStartSpec(s: string)
    ensures |TrimStart(s)| <= |s|
    ensures TrimStart(s) == s[|s| - |TrimStart(s)|..]
    ensures AllSpace(s[..|s| - |TrimStart(s)|])
    ensures TrimStart(s) == [] || !IsSpace(TrimStart(s)[0])
  {
    if s != [] && IsSpace(s[0]) {
      TrimStartSpec(s[1..]);
      var r := TrimStart(s[1..]);
      assert s[..|s| - |r|] == [s[0]] + s[1..][..|s| - 1 - |r|];
    }
  }

  /** What `TrimEnd` keeps is a prefix of `s` that is empty or ends with a
      non-space, and everything it drops is white space. */
  lemma {:induction false} TrimEndSpec(s: string)
    ensures |TrimEnd(s)| <= |s|
    ensures TrimEnd(s) == s[..|TrimEnd(s)|]
    ensures AllSpace(s[|TrimEnd(s)|..])
    ensures TrimEnd(s) == [] || !IsSpace(TrimEnd(s)[|TrimEnd(s)| - 1])
  {
    if s != [] && IsSpace(s[|s| - 1]) {
      TrimEndSpec(s[..|s| - 1]);
      var r := TrimEnd(s[..|s| - 1]);
      assert s[|r|..] == s[..|s| - 1][|r|..] + [s[|s| - 1]];
    }
  }

  /** `s.trim()` is the part of `s` between its leading and its trailing white
      space: a slice of `s` that is empty exactly when `s` is all white space,
      and otherwise starts and ends with a non-space. */
  lemma TrimSpec(s: string)
    ensures Trim(s) == [] <==> AllSpace(s)
    ensures Trim(s) == [] || (!IsSpace(Trim(s)[0]) && !IsSpace(Trim(s)[|Trim(s)| - 1]))
    ensures exists i :: 0 <= i <= |s| - |Trim(s)| && Trim(s) == s[i..][..|Trim(s)|] &&
                        AllSpace(s[..i]) && AllSpace(s[i..][|Trim(s)|..])
  {
    var t := TrimStart(s);
    var r := TrimEnd(t);
    TrimStartSpec(s);
    TrimEndSpec(t);
    var i := |s| - |t|;
    assert r == s[i..][..|r|];
    assert AllSpace(s[..i]) && AllSpace(s[i..][|r|..]);
    if r == [] {
      assert s == s[..i] + t[|r|..];
    } else {
      assert !IsSpace(s[i]);
    }
  }

  lemma TrimNoSpace(s: string)
    requires NoSpace(s)
    ensures Trim(s) == s
  {
    if s != [] {
      assert !IsSpace(s[0]) && !IsSpace(s[|s| - 1]);
    }
  }

  // ---------------------------------------------------------------------------
  // String.prototype.split(/\s/)

  /** `s.split(/\s/)`: cuts `s` at every single white-space character, so two
      adjacent separators give an empty token and `""` gives `[""]`. */
  function Split(s: string): (r: seq<string>)
    ensures |r| >= 1
  {
    if s == [] then
      [[]]
    else if IsSpace(s[0]) then
      [[]] + Split(s[1..])
    else
      var t := Split(s[1..]);
      [[s[0]] + t[0]] + t[1..]
  }

  /** The separators `Split` cuts at, in order. */
  function Separators(s: string): string {
    if s == [] then []
    else if IsSpace(s[0]) then [s[0]] + Separators(s[1..])
    else Separators(s[1..])
  }

  /** No token holds a white-space character. */
  lemma {:induction false} SplitNoSpace(s: string)
    ensures forall k :: 0 <= k < |Split(s)| ==> NoSpace(Split(s)[k])
  {
    if s != [] {
      SplitNoSpace(s[1..]);
      if !IsSpace(s[0]) {
        var t := Split(s[1..]);
        assert NoSpace(t[0]);
        assert forall k :: 1 <= k < |Split(s)| ==> Split(s)[k] == t[k];
      } else {
        assert forall k :: 1 <= k < |Split(s)| ==> Split(s)[k] == Split(s[1..])[k - 1];
      }
    }
  }

  /** Puts the separators back between the tokens. */
  function Interleave(tokens: seq<string>, seps: string): string
    requires |tokens| == |seps| + 1
  {
    if seps == [] then tokens[0]
    else tokens[0] + [seps[0]] + Interleave(tokens[1..], seps[1..])
  }

  /** `Split` loses nothing but its separators: it yields one more token
      than there are white-space characters, and putting those characters back
      between the tokens rebuilds the text. */
  lemma {:induction false} SplitRejoin(s: string)
    ensures |Split(s)| == |Separators(s)| + 1
    ensures Interleave(Split(s), Separators(s)) == s
  {
    if s == [] {
    } else if IsSpace(s[0]) {
      SplitRejoin(s[1..]);
      var t := Split(s[1..]);
      assert Split(s) == [[]] + t;
      assert Separators(s) == [s[0]] + Separators(s[1..]);
      assert (Split(s))[1..] == t;
      assert Interleave(Split(s), Separators(s)) == [] + [s[0]] + Interleave(t, Separators(s[1..]));
      assert [s[0]] + s[1..] == s;
    } else {
      SplitRejoin(s[1..]);
      var t := Split(s[1..]);
      var seps := Separators(s[1..]);
      assert Split(s) == [[s[0]] + t[0]] + t[1..];
      assert Separators(s) == seps;
      InterleaveCons(s[0], t, seps);
      assert [s[0]] + s[1..] == s;
    }
  }

  /** Prepending a character to the first token prepends it to the text. */
  lemma InterleaveCons(c: char, t: seq<string>, seps: string)
    requires |t| == |seps| + 1
    ensures Interleave([[c] + t[0]] + t[1..], seps) == [c] + Interleave(t, seps)
  {
    var u := [[c] + t[0]] + t[1..];
    assert u[0] == [c] + t[0];
    if seps != [] {
      assert u[1..] == t[1..];
      assert Interleave(u, seps) == ([c] + t[0]) + [seps[0]] + Interleave(t[1..], seps[1..]);
    }
  }

  lemma {:induction false} SplitToken(tok: string)
    requires NoSpace(tok)
    ensures Split(tok) == [tok]
  {
    if tok != [] {
      SplitToken(tok[1..]);
      assert [tok[0]] + tok[1..] == tok;
    }
  }

  /** A token followed by one separator is split off as a whole. */
  lemma {:induction false} SplitTokenThen(tok: string, sep: char, rest: string)
    requires NoSpace(tok) && IsSpace(sep)
    ensures Split(tok + [sep] + rest) == [tok] + Split(rest)
  {
    if tok == [] {
      assert (tok + [sep] + rest)[1..] == rest;
    } else {
      SplitTokenThen(tok[1..], sep, rest);
      assert (tok + [sep] + rest)[1..] == tok[1..] + [sep] + rest;
      assert [tok[0]] + tok[1..] == tok;
    }
  }

  // ---------------------------------------------------------------------------
  // parseInt

  function DigitValue(c: char): (d: nat)
    requires IsDigit(c)
    ensures d < 10
  {
    (c as int) - ('0' as int)
  }

  function DigitChar(d: nat): (c: char)
    requires d < 10
    ensures IsDigit(c) && DigitValue(c) == d
  {
    (('0' as int) + d) as char
  }

  /** The longest run of decimal digits at the start of `s`. */
  function LeadingDigits(s: string): (r: string)
    ensures |r| <= |s| && r == s[..|r|] && AllDigits(r)
    ensures |r| == |s| || !IsDigit(s[|r|])
  {
    if s != [] && IsDigit(s[0]) then
      var t := LeadingDigits(s[1..]);
      assert [s[0]] + t == s[..|t| + 1];
      [s[0]] + t
    else
      []
  }

  /** The number a run of decimal digits denotes, most significant first. */
  function DecimalValue(ds: string): nat
    requires AllDigits(ds)
  {
    if ds == [] then 0 else DecimalValue(ds[..|ds| - 1]) * 10 + DigitValue(ds[|ds| - 1])
  }

  /** The decimal rendering of `n`, which is how `Date.now()` names a backup
      file. */
  function ToDecimal(n: nat): (r: string)
    ensures |r| >= 1 && AllDigits(r)
  {
    if n < 10 then [DigitChar(n)] else ToDecimal(n / 10) + [DigitChar(n % 10)]
  }

  lemma {:induction false} DecimalRoundTrip(n: nat)
    ensures DecimalValue(ToDecimal(n)) == n
  {
    if n >= 10 {
      DecimalRoundTrip(n / 10);
      var r := ToDecimal(n);
      assert r[..|r| - 1] == ToDecimal(n / 10);
    }
  }

  /** Where the digits `parseInt` reads start: after the leading white space
      and one optional sign. */
  function Unsigned(u: string): string {
    if u != [] && (u[0] == '-' || u[0] == '+') then u[1..] else u
  }

  /** `parseInt(s)` with no radix, for decimal input: skip leading white space,
      read an optional sign, then the longest run of decimal digits; no digit
      there means `NaN` (`None`). */
  function ParseInt(s: string): Option<int> {
    var u := TrimStart(s);
    var ds := LeadingDigits(Unsigned(u));
    if ds == [] then None
    else if u[0] == '-' then Some(-(DecimalValue(ds) as int))
    else Some(DecimalValue(ds))
  }

  /** `parseInt` gives `NaN` exactly when, after the white space and the
      optional sign, the text does not go on with a digit. */
  lemma ParseIntNaN(s: string)
    ensures ParseInt(s).None? <==>
      var u := TrimStart(s);
      var k := if u != [] && (u[0] == '-' || u[0] == '+') then 1 else 0;
      k == |u| || !IsDigit(u[k])
  {
    var u := TrimStart(s);
    var b := Unsigned(u);
    if b != [] && IsDigit(b[0]) {
      assert LeadingDigits(b) != [];
    }
  }

  /** Reading back a decimal rendering, whatever non-digit text follows it
      (the `.sql` of `1700000000000.sql`, say), gives the number. */
  lemma ParseIntDecimal(n: nat, rest: string)
    requires rest == [] || !IsDigit(rest[0])
    ensures ParseInt(ToDecimal(n) + rest) == Some(n)
  {
    DecimalRoundTrip(n);
    ParseDigits(ToDecimal(n), rest);
  }

  /** With a minus sign in front, the same text gives the negated number. */
  lemma ParseIntNegative(n: nat, rest: string)
    requires rest == [] || !IsDigit(rest[0])
    ensures ParseInt("-" + ToDecimal(n) + rest) == Some(-(n as int))
  {
    DecimalRoundTrip(n);
    ParseNegDigits(ToDecimal(n), rest);
  }

  /** A run of digits followed by a non-digit parses to the run's value. */
  lemma ParseDigits(ds: string, rest: string)
    requires ds != [] && AllDigits(ds)
    requires rest == [] || !IsDigit(rest[0])
    ensures ParseInt(ds + rest) == Some(DecimalValue(ds))
  {
    var u := ds + rest;
    assert u[0] == ds[0];
    assert TrimStart(u) == u;
    assert Unsigned(u) == u;
    LeadingDigitsOf(ds, rest);
  }

  /** The same run after a minus sign parses to the negated value. */
  lemma ParseNegDigits(ds: string, rest: string)
    requires ds != [] && AllDigits(ds)
    requires rest == [] || !IsDigit(rest[0])
    ensures ParseInt("-" + ds + rest) == Some(-(DecimalValue(ds) as int))
  {
    var u := "-" + ds + rest;
    assert u[0] == '-';
    assert TrimStart(u) == u;
    assert u[1..] == ds + rest;
    assert Unsigned(u) == ds + rest;
    LeadingDigitsOf(ds, rest);
  }

  lemma {:induction false} LeadingDigitsOf(ds: string, rest: string)
    requires AllDigits(ds)
    requires rest == [] || !IsDigit(rest[0])
    ensures LeadingDigits(ds + rest) == ds
  {
    if ds != [] {
      LeadingDigitsOf(ds[1..], rest);
      assert (ds + rest)[1..] == ds[1..] + rest;
    }
  }

  // ---------------------------------------------------------------------------
  // format

  /** `.map(s => parseInt(s.trim()))`: one parse result per token. */
  function ParseAll(toks: seq<string>): seq<Option<int>> {
    seq(|toks|, k requires 0 <= k < |toks| => ParseInt(Trim(toks[k])))
  }

  /** `.filter(ts => !isNaN(ts))`: the numbers, in order. */
  function KeepNumbers(vals: seq<Option<int>>): seq<int> {
    if vals == [] then []
    else if vals[0].Some? then [vals[0].value] + KeepNumbers(vals[1..])
    else KeepNumbers(vals[1..])
  }

  /** `format(lsStr)`: trim, split at single white-space characters, parse
      every token and keep the numbers. */
  function Format(text: string): seq<int> {
    KeepNumbers(ParseAll(Split(Trim(text))))
  }

  /** Filtering a list is filtering its parts in turn: the numbers keep their
      order and are not de-duplicated. */
  lemma {:induction false} KeepNumbersAppend(a: seq<Option<int>>, b: seq<Option<int>>)
    ensures KeepNumbers(a + b) == KeepNumbers(a) + KeepNumbers(b)
  {
    if a == [] {
      assert a + b == b;
    } else {
      KeepNumbersAppend(a[1..], b);
      assert (a + b)[1..] == a[1..] + b;
    }
  }

  lemma ParseAllCons(tok: string, rest: seq<string>)
    ensures ParseAll([tok] + rest) == [ParseInt(Trim(tok))] + ParseAll(rest)
  {
  }

  /** The filter keeps a `NaN` as nothing and a number as itself. */
  lemma KeepNumbersSingle(v: Option<int>)
    ensures KeepNumbers([v]) == if v.Some? then [v.value] else []
  {
    assert [v][1..] == [];
  }

  /** The filter never lengthens the list, and keeps all of it exactly when no
      entry is `NaN`. */
  lemma {:induction false} KeepNumbersLength(vals: seq<Option<int>>)
    ensures |KeepNumbers(vals)| <= |vals|
    ensures |KeepNumbers(vals)| == |vals| <==> forall k :: 0 <= k < |vals| ==> vals[k].Some?
  {
    if vals != [] {
      KeepNumbersLength(vals[1..]);
      assert forall k :: 1 <= k < |vals| ==> vals[k] == vals[1..][k - 1];
    }
  }

  /** The numbers kept are exactly the values the tokens parsed to: none is
      invented and none is lost. */
  lemma {:induction false} KeepNumbersMembers(vals: seq<Option<int>>)
    ensures forall x :: x in KeepNumbers(vals) <==> Some(x) in vals
  {
    if vals != [] {
      KeepNumbersMembers(vals[1..]);
      assert forall v :: v in vals <==> v == vals[0] || v in vals[1..];
    }
  }

  /** `format` yields no more timestamps than the listing has tokens, and
      exactly one per token when every token parses. */
  lemma FormatLength(text: string)
    ensures |Format(text)| <= |Split(Trim(text))|
    ensures |Format(text)| == |Split(Trim(text))| <==>
            forall k :: 0 <= k < |Split(Trim(text))| ==> ParseInt(Trim(Split(Trim(text))[k])).Some?
  {
    var toks := Split(Trim(text));
    KeepNumbersLength(ParseAll(toks));
    assert forall k :: 0 <= k < |toks| ==> ParseAll(toks)[k] == ParseInt(Trim(toks[k]));
  }

  /** Empty or white-space-only text gives no timestamps: `"".split` gives
      `[""]`, and `parseInt("")` is `NaN`. */
  lemma FormatBlank(text: string)
    requires AllSpace(text)
    ensures Format(text) == []
  {
    TrimSpec(text);
    assert Trim([]) == [] && ParseInt([]) == None;
    assert ParseAll([[]]) == [None];
    assert KeepNumbers([None]) == KeepNumbers([]);
  }

  // ---------------------------------------------------------------------------
  // Round trip with the listing `ls` prints

  /** What `ls` prints, one name per line, for a directory whose files are
      named by the decimal renderings of `ts`. */
  function LsOutput(ts: seq<nat>): string {
    if ts == [] then [] else ToDecimal(ts[0]) + "\n" + LsOutput(ts[1..])
  }

  /** The names of `ts` joined by line feeds, without the final one. */
  function JoinLines(ts: seq<nat>): (r: string)
    requires ts != []
    ensures r != [] && !IsSpace(r[0]) && !IsSpace(r[|r| - 1])
  {
    var d := ToDecimal(ts[0]);
    assert !IsSpace(d[0]) && !IsSpace(d[|d| - 1]);
    if |ts| == 1 then d else d + "\n" + JoinLines(ts[1..])
  }

  lemma {:induction false} LsOutputLines(ts: seq<nat>)
    requires ts != []
    ensures LsOutput(ts) == JoinLines(ts) + "\n"
  {
    if |ts| > 1 {
      LsOutputLines(ts[1..]);
    }
  }

  lemma DecimalNoSpace(n: nat)
    ensures NoSpace(ToDecimal(n))
  {
    var d := ToDecimal(n);
    assert forall i :: 0 <= i < |d| ==> IsDigit(d[i]);
  }

  /** A file name written by `Date.now()` parses back to its timestamp. */
  lemma DecimalToken(n: nat)
    ensures ParseInt(Trim(ToDecimal(n))) == Some(n)
  {
    var d := ToDecimal(n);
    DecimalNoSpace(n);
    TrimNoSpace(d);
    ParseIntDecimal(n, []);
    assert d + [] == d;
  }

  lemma {:induction false} ParsedJoinLines(ts: seq<nat>)
    requires ts != []
    ensures KeepNumbers(ParseAll(Split(JoinLines(ts)))) == ts
  {
    var d := ToDecimal(ts[0]);
    var v := ParseInt(Trim(d));
    assert v == Some(ts[0]) by { DecimalToken(ts[0]); }
    DecimalNoSpace(ts[0]);
    if |ts| == 1 {
      assert ParseAll(Split(d)) == [v] by {
        SplitToken(d);
        ParseAllCons(d, []);
      }
      KeepNumbersSingle(v);
    } else {
      var rest := Split(JoinLines(ts[1..]));
      assert Split(JoinLines(ts)) == [d] + rest by {
        SplitTokenThen(d, '\n', JoinLines(ts[1..]));
        assert JoinLines(ts) == d + ['\n'] + JoinLines(ts[1..]);
      }
      assert ParseAll([d] + rest) == [v] + ParseAll(rest) by {
        ParseAllCons(d, rest);
      }
      ParsedJoinLines(ts[1..]);
      KeepNumbersCons(v, ParseAll(rest));
      assert [ts[0]] + ts[1..] == ts;
    }
  }

  /** `format` reads back exactly the timestamps of the files `ls` lists, in
      listing order. */
  lemma FormatLsOutput(ts: seq<nat>)
    ensures Format(LsOutput(ts)) == ts
  {
    if ts == [] {
      FormatBlank([]);
    } else {
      LsOutputLines(ts);
      var j := JoinLines(ts);
      TrimStartSpec(j + "\n");
      assert TrimStart(j + "\n") == j + "\n";
      assert (j + "\n")[..|j + "\n"| - 1] == j;
      assert TrimEnd(j + "\n") == j;
      ParsedJoinLines(ts);
    }
  }

  /** A stray entry between two backups is skipped: the listing
      `<a>\nfoo\n<b>` gives exactly `[a, b]`. */
  lemma FormatSkipsJunk(a: nat, b: nat)
    ensures Format(ToDecimal(a) + "\nfoo\n" + ToDecimal(b)) == [a, b]
  {
    DecimalNoSpace(a);
    DecimalNoSpace(b);
    JunkTokens(ToDecimal(a), ToDecimal(b));
    JunkValues(a, b);
  }

  lemma JunkTokens(da: string, db: string)
    requires da != [] && db != [] && NoSpace(da) && NoSpace(db)
    ensures Split(Trim(da + "\nfoo\n" + db)) == [da, "foo", db]
  {
    var text := da + "\nfoo\n" + db;
    assert !IsSpace(text[0]) && text[|text| - 1] == db[|db| - 1];
    TrimKeeps(text);
    assert text == da + ['\n'] + ("foo" + ['\n'] + db);
    SplitTokenThen(da, '\n', "foo" + ['\n'] + db);
    SplitTokenThen("foo", '\n', db);
    SplitToken(db);
  }

  lemma JunkValues(a: nat, b: nat)
    ensures KeepNumbers(ParseAll([ToDecimal(a), "foo", ToDecimal(b)])) == [a, b]
  {
    var da, db := ToDecimal(a), ToDecimal(b);
    ParseAllThree(da, "foo", db);
    DecimalToken(a);
    FooIsNaN();
    DecimalToken(b);
    KeepSomeNoneSome(a, b);
  }

  lemma ParseAllThree(x: string, y: string, z: string)
    ensures ParseAll([x, y, z]) == [ParseInt(Trim(x)), ParseInt(Trim(y)), ParseInt(Trim(z))]
  {
  }

  lemma KeepSomeNoneSome(a: int, b: int)
    ensures KeepNumbers([Some(a), None, Some(b)]) == [a, b]
  {
    KeepNumbersCons(Some(a), [None, Some(b)]);
    KeepNumbersCons(None, [Some(b)]);
    KeepNumbersCons(Some(b), []);
    assert [Some(a)] + [None, Some(b)] == [Some(a), None, Some(b)];
    assert [None] + [Some(b)] == [None, Some(b)];
    assert [Some(b)] + [] == [Some(b)];
  }

  lemma FooIsNaN()
    ensures ParseInt(Trim("foo")) == None
  {
    TrimNoSpace("foo");
    assert TrimStart("foo") == "foo";
    assert LeadingDigits("foo") == [];
  }

  lemma KeepNumbersCons(v: Option<int>, rest: seq<Option<int>>)
    ensures KeepNumbers([v] + rest) == (if v.Some? then [v.value] else []) + KeepNumbers(rest)
  {
    assert ([v] + rest)[1..] == rest;
  }

  /** Text that starts and ends with a non-space is its own trim. */
  lemma TrimKeeps(s: string)
    requires s != [] && !IsSpace(s[0]) && !IsSpace(s[|s| - 1])
    ensures Trim(s) == s
  {
    assert TrimStart(s) == s;
  }
}
