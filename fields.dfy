/** Whitespace tokenising of an action command line, as Go's `strings.Fields`
    does it, and the split of the tokens into a program and its arguments. */
module Fields {
  import opened Wrappers

  /** Go's `unicode.IsSpace`: the six ASCII spaces, NEL, NO-BREAK SPACE and
      the other code points with the Unicode White_Space property. Below
      U+0100 these are exactly the eight characters Go lists for Latin-1. */
  predicate IsSpace(c: char)
    ensures c as int < 0x100 ==> (IsSpace(c) <==> c in " \t\n\r\U{000B}\U{000C}\U{0085}\U{00A0}")
  {
    c == ' ' || ('\t' <= c <= '\r')
    || c == '\U{0085}' || c == '\U{00A0}' || c == '\U{1680}'
    || ('\U{2000}' <= c <= '\U{200A}')
    || c == '\U{2028}' || c == '\U{2029}' || c == '\U{202F}'
    || c == '\U{205F}' || c == '\U{3000}'
  }

  /** A token: no character of it is whitespace. */
  predicate NoSpace(s: string) {
    forall i :: 0 <= i < |s| ==> !IsSpace(s[i])
  }

  /** The longest prefix of `s` that holds no whitespace. */
  function Word(s: string): (w: string)
    ensures w <= s && NoSpace(w)
    ensures |w| < |s| ==> IsSpace(s[|w|])
  {
    if s == [] || IsSpace(s[0]) then [] else [s[0]] + Word(s[1..])
  }

  /** `strings.Fields`: the maximal runs of non-whitespace characters of `s`,
      in order. Every field is non-empty and holds no whitespace. */
  function Fields(s: string): (ts: seq<string>)
    ensures forall t :: t in ts ==> t != [] && NoSpace(t)
    decreases |s|
  {
    if s == [] then []
    else if IsSpace(s[0]) then Fields(s[1..])
    else
      var w := Word(s);
      [w] + Fields(s[|w|..])
  }

  /** `s` with every whitespace character removed. */
  function Strip(s: string): string {
    if s == [] then []
    else if IsSpace(s[0]) then Strip(s[1..])
    else [s[0]] + Strip(s[1..])
  }

  /** The tokens glued together with nothing between them. */
  function Concat(ts: seq<string>): string {
    if ts == [] then [] else ts[0] + Concat(ts[1..])
  }

  /** The tokens joined with one blank between neighbours. */
  function Join(ts: seq<string>): string {
    if ts == [] then []
    else if |ts| == 1 then ts[0]
    else ts[0] + " " + Join(ts[1..])
  }

  /** Stripping a string with a whitespace-free prefix keeps that prefix. */
  lemma {:induction false} StripPrefix(w: string, x: string)
    requires NoSpace(w)
    ensures Strip(w + x) == w + Strip(x)
  {
    if w != [] {
      assert (w + x)[0] == w[0] && (w + x)[1..] == w[1..] + x;
      assert NoSpace(w[1..]) by {
        forall i | 0 <= i < |w[1..]| ensures !IsSpace(w[1..][i]) { assert w[1..][i] == w[i + 1]; }
      }
      assert !IsSpace(w[0]);
      calc {
        Strip(w + x);
        [w[0]] + Strip(w[1..] + x);
        { StripPrefix(w[1..], x); }
        [w[0]] + (w[1..] + Strip(x));
        { assert w == [w[0]] + w[1..]; }
        w + Strip(x);
      }
    } else {
      assert w + x == x;
    }
  }

  /** Reading the fields back in order loses exactly the whitespace of `s`:
      no character is invented, dropped or reordered. */
  lemma {:induction false} FieldsKeepText(s: string)
    ensures Concat(Fields(s)) == Strip(s)
    decreases |s|
  {
    if s != [] {
      if IsSpace(s[0]) {
        FieldsKeepText(s[1..]);
      } else {
        var w := Word(s);
        assert s == w + s[|w|..];
        FieldsKeepText(s[|w|..]);
        StripPrefix(w, s[|w|..]);
        assert ([w] + Fields(s[|w|..]))[1..] == Fields(s[|w|..]);
      }
    }
  }

  /** There is no field exactly when every character is whitespace. */
  lemma {:induction false} FieldsEmptyIff(s: string)
    ensures Fields(s) == [] <==> forall i :: 0 <= i < |s| ==> IsSpace(s[i])
    decreases |s|
  {
    if s != [] && IsSpace(s[0]) {
      FieldsEmptyIff(s[1..]);
      if forall i :: 0 <= i < |s[1..]| ==> IsSpace(s[1..][i]) {
        forall i | 0 <= i < |s| ensures IsSpace(s[i]) {
          if i > 0 { assert s[i] == s[1..][i - 1]; }
        }
      }
    }
  }

  /** The word of a token followed by whitespace or nothing is the token. */
  lemma {:induction false} WordOfToken(t: string, x: string)
    requires NoSpace(t)
    requires x == [] || IsSpace(x[0])
    ensures Word(t + x) == t
  {
    if t != [] {
      assert (t + x)[0] == t[0] && (t + x)[1..] == t[1..] + x;
      assert NoSpace(t[1..]) by {
        forall i | 0 <= i < |t[1..]| ensures !IsSpace(t[1..][i]) { assert t[1..][i] == t[i + 1]; }
      }
      WordOfToken(t[1..], x);
    }
  }

  /** Leading whitespace contributes no field. */
  lemma {:induction false} FieldsSkipsBlank(x: string)
    ensures Fields(" " + x) == Fields(x)
  {
  }

  /** Round trip: tokens that are non-empty and free of whitespace, joined
      with blanks, are split back into exactly those tokens. */
  lemma {:induction false} FieldsOfJoin(ts: seq<string>)
    requires forall t :: t in ts ==> t != [] && NoSpace(t)
    ensures Fields(Join(ts)) == ts
  {
    if |ts| == 1 {
      WordOfToken(ts[0], []);
      assert ts[0] + [] == ts[0];
      assert Join(ts)[|ts[0]|..] == [];
    } else if |ts| > 1 {
      var t, rest := ts[0], " " + Join(ts[1..]);
      assert Join(ts) == t + rest;
      WordOfToken(t, rest);
      assert (t + rest)[|t|..] == rest;
      FieldsSkipsBlank(Join(ts[1..]));
      assert forall u :: u in ts[1..] ==> u in ts;
      FieldsOfJoin(ts[1..]);
    }
  }

  /** A line that is one token is that single field. */
  lemma FieldsOfToken(w: string)
    requires w != [] && NoSpace(w)
    ensures Fields(w) == [w]
  {
    FieldsOfJoin([w]);
  }

  /** Appending text that starts with whitespace does not change the leading word. */
  lemma {:induction false} WordAppend(a: string, x: string)
    requires x == [] || IsSpace(x[0])
    ensures Word(a + x) == Word(a)
  {
    if a == [] {
      assert a + x == x;
    } else {
      assert (a + x)[0] == a[0] && (a + x)[1..] == a[1..] + x;
      WordAppend(a[1..], x);
    }
  }

  /** The line is split at every whitespace character: the fields of the text
      on either side of one are the fields of the whole, in order. With
      `FieldsOfToken` and `FieldsEmptyIff` this determines `Fields`. */
  lemma {:induction false} FieldsSplitAtSpace(a: string, c: char, b: string)
    requires IsSpace(c)
    ensures Fields(a + [c] + b) == Fields(a) + Fields(b)
    decreases |a|
  {
    var s := a + [c] + b;
    if a == [] {
      assert s[1..] == b;
    } else if IsSpace(a[0]) {
      assert s[0] == a[0] && s[1..] == a[1..] + [c] + b;
      FieldsSplitAtSpace(a[1..], c, b);
    } else {
      var w, rest := Word(a), a[|Word(a)|..];
      assert s == a + ([c] + b);
      assert s[0] == a[0];
      assert s[|w|..] == rest + [c] + b;
      calc {
        Fields(s);
        [Word(s)] + Fields(s[|Word(s)|..]);
        { WordAppend(a, [c] + b); }
        [w] + Fields(rest + [c] + b);
        { FieldsSplitAtSpace(rest, c, b); }
        [w] + (Fields(rest) + Fields(b));
        ([w] + Fields(rest)) + Fields(b);
        Fields(a) + Fields(b);
      }
    }
  }

  /** The argument vector handed to the process spawner: `args[0]` and
      `args[1:]` of the tokenised command line. */
  datatype Argv = Argv(program: string, args: seq<string>)

  /** The tokens of `line` as a program and its arguments, or `None` when the
      line holds no token, where the source's `args[0]` is out of range. */
  function SplitCommand(line: string): (r: Option<Argv>)
    ensures r.None? <==> forall i :: 0 <= i < |line| ==> IsSpace(line[i])
    ensures r.Some? ==> [r.value.program] + r.value.args == Fields(line)
    ensures r.Some? ==> r.value.program != [] && NoSpace(r.value.program)
  {
    FieldsEmptyIff(line);
    var ts := Fields(line);
    if ts == [] then None
    else
      assert ts[0] in ts && [ts[0]] + ts[1..] == ts;
      Some(Argv(ts[0], ts[1..]))
  }
}
