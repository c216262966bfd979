/** Text processing of the account-number (IBAN) field of the payment-barcode
    form: the character filter applied to every keystroke, the regrouping of
    the remaining letters and digits into blocks of four, and the whitespace
    stripping done before the account number is handed to the validity check.

    Strings are sequences of characters. The source works on JavaScript
    strings (UTF-16 code units); every character the filter keeps is ASCII,
    so the difference never shows in a result. */
module IbanFormat {

  // ---------------------------------------------------------------------------
  // Character classes
  // ---------------------------------------------------------------------------

  predicate IsAsciiLetter(c: char) { 'A' <= c <= 'Z' || 'a' <= c <= 'z' }

  predicate IsAsciiDigit(c: char) { '0' <= c <= '9' }

  /** A letter or digit: what an IBAN is made of. */
  predicate IsAlnum(c: char) { IsAsciiLetter(c) || IsAsciiDigit(c) }

  /** The character class `[A-Za-z0-9 ]` of the keystroke filter. */
  predicate IsAllowed(c: char) { IsAlnum(c) || c == ' ' }

  /** The character class `\s` of a JavaScript regular expression: the
      ECMAScript WhiteSpace and LineTerminator code points. */
  predicate IsWhitespace(c: char) {
    c == '\t' || c == '\n' || c == '\U{B}' || c == '\U{C}' || c == '\r' || c == ' '
    || c == '\U{A0}' || c == '\U{1680}' || '\U{2000}' <= c <= '\U{200A}'
    || c == '\U{2028}' || c == '\U{2029}' || c == '\U{202F}' || c == '\U{205F}'
    || c == '\U{3000}' || c == '\U{FEFF}'
  }

  predicate AllAlnum(s: string) { forall i :: 0 <= i < |s| ==> IsAlnum(s[i]) }

  predicate AllAllowed(s: string) { forall i :: 0 <= i < |s| ==> IsAllowed(s[i]) }

  // ---------------------------------------------------------------------------
  // Reference definition: the letters and digits of a text, in order
  // ---------------------------------------------------------------------------

  /** The letters and digits of `s` in their original order; every other
      character is dropped. The formatter is specified against this. */
  function Alnums(s: string): (r: string)
    ensures AllAlnum(r)
  {
    if s == [] then []
    else
      (if IsAlnum(s[0]) then [s[0]] else []) + Alnums(s[1..])
  }

  // ---------------------------------------------------------------------------
  // The three string operations of the formatter
  // ---------------------------------------------------------------------------

  /** `input.replace(/[^A-Za-z0-9 ]/g, '')`: keeps letters, digits and
      spaces, each as often as it occurs, and nothing else. */
  function KeepAllowed(s: string): (r: string)
    ensures AllAllowed(r)
  {
    if s == [] then []
    else
      (if IsAllowed(s[0]) then [s[0]] else []) + KeepAllowed(s[1..])
  }

  /** `value.split(' ').join('')`, and equally `replace(/ /g, '')`: deletes
      every space and keeps every other character, each as often as it
      occurs. */
  function RemoveSpaces(s: string): (r: string)
    ensures ' ' !in r
  {
    if s == [] then []
    else
      (if s[0] == ' ' then [] else [s[0]]) + RemoveSpaces(s[1..])
  }

  /** `iban.replace(/\s/g, '')`: deletes every whitespace character and keeps
      every other character, each as often as it occurs. */
  function StripWhitespace(s: string): (r: string)
    ensures forall i :: 0 <= i < |r| ==> !IsWhitespace(r[i])
  {
    if s == [] then []
    else
      (if IsWhitespace(s[0]) then [] else [s[0]]) + StripWhitespace(s[1..])
  }

  // ---------------------------------------------------------------------------
  // Nothing of the kept kinds is lost or duplicated
  // ---------------------------------------------------------------------------

  /** Every letter and digit of the input occurs in `Alnums` exactly as often. */
  lemma {:induction false} AlnumsCounts(s: string)
    ensures forall c :: IsAlnum(c) ==> multiset(Alnums(s))[c] == multiset(s)[c]
  {
    if s != [] {
      AlnumsCounts(s[1..]);
      assert s == [s[0]] + s[1..];
    }
  }

  /** The filter keeps every letter, digit and space, each exactly as often as it occurs. */
  lemma {:induction false} KeepAllowedCounts(s: string)
    ensures forall c :: IsAllowed(c) ==> multiset(KeepAllowed(s))[c] == multiset(s)[c]
  {
    if s != [] {
      KeepAllowedCounts(s[1..]);
      assert s == [s[0]] + s[1..];
    }
  }

  /** Deleting spaces keeps every other character, each exactly as often as it occurs. */
  lemma {:induction false} RemoveSpacesCounts(s: string)
    ensures forall c :: c != ' ' ==> multiset(RemoveSpaces(s))[c] == multiset(s)[c]
  {
    if s != [] {
      RemoveSpacesCounts(s[1..]);
      assert s == [s[0]] + s[1..];
    }
  }

  /** Stripping whitespace keeps every other character, each exactly as often as it occurs. */
  lemma {:induction false} StripWhitespaceCounts(s: string)
    ensures forall c :: !IsWhitespace(c) ==> multiset(StripWhitespace(s))[c] == multiset(s)[c]
  {
    if s != [] {
      StripWhitespaceCounts(s[1..]);
      assert s == [s[0]] + s[1..];
    }
  }

  // ---------------------------------------------------------------------------
  // Grouping into blocks of four
  // ---------------------------------------------------------------------------

  /** The pieces glued back together, without separators. */
  function Concat(g: seq<string>): string {
    if g == [] then [] else g[0] + Concat(g[1..])
  }

  /** `c.match(/.{1,4}/g)` on a text without line terminators: the greedy
      global match takes four characters at a time and a shorter remainder
      last. The source's "no match" (`null`) is the empty sequence here. */
  function Chunks(c: string): (r: seq<string>)
    ensures forall i :: 0 <= i < |r| ==> 1 <= |r[i]| <= 4
    ensures forall i :: 0 <= i < |r| - 1 ==> |r[i]| == 4
    ensures Concat(r) == c
    decreases |c|
  {
    if c == [] then []
    else if |c| <= 4 then [c]
    else
      var r := [c[..4]] + Chunks(c[4..]);
      assert r[1..] == Chunks(c[4..]);
      assert c == c[..4] + c[4..];
      r
  }

  /** `g.join(' ')`: the pieces with one space between neighbours, so the
      result is one character longer per boundary. */
  function JoinWithSpaces(g: seq<string>): (r: string)
    ensures g != [] ==> |r| == |Concat(g)| + |g| - 1
  {
    if g == [] then ""
    else if |g| == 1 then g[0]
    else g[0] + " " + JoinWithSpaces(g[1..])
  }

  /** Joining pieces that hold no space only inserts spaces: deleting them
      gives the pieces back, in order. */
  lemma {:induction false} JoinUngroups(g: seq<string>)
    requires ' ' !in Concat(g)
    ensures RemoveSpaces(JoinWithSpaces(g)) == Concat(g)
  {
    if g != [] {
      assert Concat(g) == g[0] + Concat(g[1..]);
      assert ' ' !in g[0] && ' ' !in Concat(g[1..]);
      RemoveSpacesIdentity(g[0]);
      if |g| == 1 {
        assert Concat(g[1..]) == [];
      } else {
        JoinUngroups(g[1..]);
        RemoveSpacesAppend(g[0] + " ", JoinWithSpaces(g[1..]));
        RemoveSpacesAppend(g[0], " ");
      }
    }
  }

  /** Lines 51-53 of the handler: the compacted text cut into chunks of at
      most four and joined with single spaces; no chunk gives the empty
      string. The result is empty only for an empty text, and a text without
      spaces comes back when the inserted spaces are deleted. */
  function Group(compact: string): (r: string)
    ensures r == "" <==> compact == ""
    ensures ' ' !in compact ==> RemoveSpaces(r) == compact
  {
    var chunks := Chunks(compact);
    assert ' ' !in compact ==> RemoveSpaces(JoinWithSpaces(chunks)) == compact by {
      if ' ' !in compact { JoinUngroups(chunks); }
    }
    if chunks == [] then "" else JoinWithSpaces(chunks)
  }

  /** The value the handler writes back into the field: deleting its spaces
      gives exactly the input's letters and digits, in their original order. */
  function Format(input: string): (r: string)
    ensures RemoveSpaces(r) == Alnums(input)
  {
    CompactIsAlnums(input);
    assert !IsAlnum(' ');
    Group(RemoveSpaces(KeepAllowed(input)))
  }

  /** Blocks of four separated by single spaces: a space exactly at every
      fifth position, and none at the end. Hence no leading, trailing or
      doubled space, every block is non-empty and every block but the last
      is four long. */
  predicate IsGrouped(t: string) {
    && (forall i :: 0 <= i < |t| ==> (t[i] == ' ' <==> i % 5 == 4))
    && (t == [] || t[|t| - 1] != ' ')
  }

  // ---------------------------------------------------------------------------
  // Lemmas about Group
  // ---------------------------------------------------------------------------

  /** Group in the form of its own recursion: the first four characters, a
      space, and the rest grouped. */
  lemma GroupUnfold(c: string)
    ensures c == [] ==> Group(c) == ""
    ensures 1 <= |c| <= 4 ==> Group(c) == c
    ensures |c| > 4 ==> Group(c) == c[..4] + " " + Group(c[4..])
  {
  }

  lemma {:induction false} RemoveSpacesAppend(a: string, b: string)
    ensures RemoveSpaces(a + b) == RemoveSpaces(a) + RemoveSpaces(b)
  {
    if a == [] {
      assert a + b == b;
    } else {
      var head := if a[0] == ' ' then [] else [a[0]];
      assert (a + b)[0] == a[0];
      assert (a + b)[1..] == a[1..] + b;
      RemoveSpacesAppend(a[1..], b);
      calc {
        RemoveSpaces(a + b);
        head + RemoveSpaces(a[1..] + b);
        head + (RemoveSpaces(a[1..]) + RemoveSpaces(b));
        (head + RemoveSpaces(a[1..])) + RemoveSpaces(b);
        RemoveSpaces(a) + RemoveSpaces(b);
      }
    }
  }

  /** A text without spaces is left alone by RemoveSpaces. */
  lemma {:induction false} RemoveSpacesIdentity(s: string)
    requires ' ' !in s
    ensures RemoveSpaces(s) == s
  {
    if s != [] {
      assert ' ' !in s[1..] by { assert forall i :: 0 <= i < |s[1..]| ==> s[1..][i] == s[i + 1]; }
      RemoveSpacesIdentity(s[1..]);
      assert s == [s[0]] + s[1..];
    }
  }

  /** Grouping a text without spaces gives blocks of four separated by single
      spaces. */
  lemma {:induction false} GroupShape(c: string)
    requires AllAlnum(c)
    ensures IsGrouped(Group(c))
    decreases |c|
  {
    GroupUnfold(c);
    if |c| > 4 {
      var rest := Group(c[4..]);
      var t := Group(c);
      assert AllAlnum(c[4..]) by { assert forall i :: 0 <= i < |c[4..]| ==> c[4..][i] == c[i + 4]; }
      GroupShape(c[4..]);
      assert t == c[..4] + " " + rest;
      forall i | 0 <= i < |t|
        ensures t[i] == ' ' <==> i % 5 == 4
      {
        if i < 4 {
          assert t[i] == c[i];
          assert IsAlnum(c[i]);
        } else if i > 4 {
          assert t[i] == rest[i - 5];
          assert (i - 5) % 5 == i % 5;
        }
      }
      assert t[|t| - 1] != ' ' by {
        GroupLength(c[4..]);
        assert t[|t| - 1] == rest[|rest| - 1];
      }
    }
  }

  /** Grouping a text of letters and digits yields letters, digits and
      spaces only. */
  lemma {:induction false} GroupAlphabet(c: string)
    requires AllAlnum(c)
    ensures AllAllowed(Group(c))
    decreases |c|
  {
    GroupUnfold(c);
    if |c| > 4 {
      var rest := Group(c[4..]);
      var t := Group(c);
      assert AllAlnum(c[4..]) by { assert forall i :: 0 <= i < |c[4..]| ==> c[4..][i] == c[i + 4]; }
      GroupAlphabet(c[4..]);
      forall i | 0 <= i < |t| ensures IsAllowed(t[i]) {
        if i < 4 { assert t[i] == c[i]; }
        else if i > 4 { assert t[i] == rest[i - 5]; }
      }
    }
  }

  /** One space per completed block of four: n characters take
      n + (n - 1) / 4 positions. */
  lemma {:induction false} GroupLength(c: string)
    ensures |Group(c)| == if c == [] then 0 else |c| + (|c| - 1) / 4
    decreases |c|
  {
    GroupUnfold(c);
    if |c| > 4 {
      GroupLength(c[4..]);
    }
  }

  // ---------------------------------------------------------------------------
  // Lemmas about Format
  // ---------------------------------------------------------------------------

  /** The filter followed by the removal of spaces leaves exactly the letters
      and digits of the input. */
  lemma {:induction false} CompactIsAlnums(s: string)
    ensures RemoveSpaces(KeepAllowed(s)) == Alnums(s)
  {
    if s != [] {
      var head := if IsAllowed(s[0]) then [s[0]] else [];
      var kept := if IsAlnum(s[0]) then [s[0]] else [];
      assert RemoveSpaces(head) == kept by {
        if IsAllowed(s[0]) {
          assert head == [s[0]] + [];
          assert head[1..] == [];
        }
      }
      calc {
        RemoveSpaces(KeepAllowed(s));
        RemoveSpaces(head + KeepAllowed(s[1..]));
        { RemoveSpacesAppend(head, KeepAllowed(s[1..])); }
        RemoveSpaces(head) + RemoveSpaces(KeepAllowed(s[1..]));
        { CompactIsAlnums(s[1..]); }
        kept + Alnums(s[1..]);
        Alnums(s);
      }
    }
  }

  /** Format is grouping applied to the input's letters and digits. */
  lemma FormatIsGroupedAlnums(s: string)
    ensures Format(s) == Group(Alnums(s))
  {
  }

  /** The formatted value holds only ASCII letters, digits and spaces. */
  lemma FormatAlphabet(s: string)
    ensures AllAllowed(Format(s))
  {
    FormatIsGroupedAlnums(s);
    GroupAlphabet(Alnums(s));
  }

  /** The formatted value is blocks of four separated by single spaces. */
  lemma FormatGrouped(s: string)
    ensures IsGrouped(Format(s))
  {
    FormatIsGroupedAlnums(s);
    GroupShape(Alnums(s));
  }

  /** The formatted value is empty exactly when the input has no letter or
      digit (an empty input included). */
  lemma FormatEmpty(s: string)
    ensures Format(s) == "" <==> Alnums(s) == ""
  {
  }

  /** Length of the formatted value in terms of the number n of letters and
      digits of the input. */
  lemma FormatLength(s: string)
    ensures var n := |Alnums(s)|; |Format(s)| == if n == 0 then 0 else n + (n - 1) / 4
  {
    FormatIsGroupedAlnums(s);
    GroupLength(Alnums(s));
  }

  /** A complete Finnish IBAN (18 letters and digits) is displayed in exactly
      22 characters: four blocks of four, one of two, four spaces. This is
      the field's maximum length. */
  lemma FullIbanWidth(s: string)
    requires |Alnums(s)| == 18
    ensures |Format(s)| == 22
  {
    FormatLength(s);
  }

  /** A text of allowed characters passes the filter unchanged. */
  lemma {:induction false} KeepAllowedIdentity(s: string)
    requires AllAllowed(s)
    ensures KeepAllowed(s) == s
  {
    if s != [] {
      assert AllAllowed(s[1..]) by { assert forall i :: 0 <= i < |s[1..]| ==> s[1..][i] == s[i + 1]; }
      KeepAllowedIdentity(s[1..]);
      assert s == [s[0]] + s[1..];
    }
  }

  /** Formatting is idempotent: a formatted value fed back into the
      formatter comes out unchanged. */
  lemma FormatIdempotent(s: string)
    ensures Format(Format(s)) == Format(s)
  {
    var t := Format(s);
    FormatAlphabet(s);
    KeepAllowedIdentity(t);
    FormatIsGroupedAlnums(s);
    calc {
      Format(t);
      Group(RemoveSpaces(KeepAllowed(t)));
      Group(RemoveSpaces(t));
      Group(Alnums(s));
      t;
    }
  }

  /** The value handed to the validity check, the formatted value with its
      whitespace removed, is exactly the input's letters and digits. */
  lemma StripFormatted(s: string)
    ensures StripWhitespace(Format(s)) == Alnums(s)
  {
    FormatAlphabet(s);
    StripIsRemoveSpaces(Format(s));
  }

  /** On letters, digits and spaces, stripping all whitespace is deleting the
      spaces. */
  lemma {:induction false} StripIsRemoveSpaces(t: string)
    requires AllAllowed(t)
    ensures StripWhitespace(t) == RemoveSpaces(t)
  {
    if t != [] {
      assert AllAllowed(t[1..]) by { assert forall i :: 0 <= i < |t[1..]| ==> t[1..][i] == t[i + 1]; }
      assert IsAllowed(t[0]);
      StripIsRemoveSpaces(t[1..]);
    }
  }
}
