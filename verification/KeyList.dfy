/** `kid=secret;kid=secret`: the list of retired verification keys in the configuration. */
module KeyList {
  import opened Wrappers
  import opened Text

  datatype KeyMaterial = KeyMaterial(kid: string, secret: string)

  /** `str::split` on one character: n separators give n+1 pieces. */
  function Split(s: string, sep: char): (pieces: seq<string>)
    ensures |pieces| > 0
  {
    if s == "" then [""]
    else
      var rest := Split(s[1..], sep);
      if s[0] == sep then [""] + rest else [[s[0]] + rest[0]] + rest[1..]
  }

  /** `str::split_once`: what is before and after the first separator. */
  function SplitOnce(s: string, sep: char): Option<(string, string)> {
    if s == "" then None
    else if s[0] == sep then Some(("", s[1..]))
    else
      match SplitOnce(s[1..], sep)
      case None => None
      case Some((before, after)) => Some(([s[0]] + before, after))
  }

  function ParseEntry(entry: string): seq<KeyMaterial> {
    match SplitOnce(entry, '=')
    case None => []
    case Some((kid, secret)) =>
      var key := KeyMaterial(Trim(kid, IsWhitespace), secret);
      if key.kid != "" && key.secret != "" then [key] else []
  }

  function ParseEntries(entries: seq<string>): seq<KeyMaterial> {
    if entries == [] then [] else ParseEntry(entries[0]) + ParseEntries(entries[1..])
  }

  function ParseRetired(raw: string): seq<KeyMaterial> {
    ParseEntries(Split(raw, ';'))
  }

  function Print(keys: seq<KeyMaterial>): string {
    if keys == [] then ""
    else if |keys| == 1 then PrintKey(keys[0])
    else PrintKey(keys[0]) + ";" + Print(keys[1..])
  }

  function PrintKey(key: KeyMaterial): string {
    key.kid + "=" + key.secret
  }

  /** A key the list syntax can carry. */
  predicate Printable(key: KeyMaterial) {
    && key.kid != "" && !IsWhitespace(key.kid[0]) && !IsWhitespace(key.kid[|key.kid| - 1])
    && '=' !in key.kid && ';' !in key.kid
    && key.secret != "" && ';' !in key.secret
  }

  // ----- concatenation

  lemma {:induction false} SplitJoined(a: string, b: string, sep: char)
    ensures Split(a + [sep] + b, sep) == Split(a, sep) + Split(b, sep)
  {
    if a == "" {
      assert a + [sep] + b == [sep] + b;
    } else {
      assert (a + [sep] + b)[1..] == a[1..] + [sep] + b;
      SplitJoined(a[1..], b, sep);
    }
  }

  lemma {:induction false} ParseEntriesAppend(xs: seq<string>, ys: seq<string>)
    ensures ParseEntries(xs + ys) == ParseEntries(xs) + ParseEntries(ys)
  {
    if xs == [] {
      assert xs + ys == ys;
    } else {
      assert (xs + ys)[1..] == xs[1..] + ys;
      ParseEntriesAppend(xs[1..], ys);
    }
  }

  /** Parsing a joined list is parsing its parts: a malformed entry never affects its neighbours. */
  lemma ParseJoined(a: string, b: string)
    ensures ParseRetired(a + ";" + b) == ParseRetired(a) + ParseRetired(b)
  {
    SplitJoined(a, b, ';');
    ParseEntriesAppend(Split(a, ';'), Split(b, ';'));
  }

  // ----- one entry

  /** The key id loses the blanks around it, the secret keeps its own, the first `=` separates them, and
      an entry without an id or without a secret is skipped. */
  lemma EntryIsParsed(lead: string, kid: string, trail: string, secret: string)
    requires All(lead, IsWhitespace) && All(trail, IsWhitespace)
    requires kid != "" && !IsWhitespace(kid[0]) && !IsWhitespace(kid[|kid| - 1])
    requires '=' !in kid && ';' !in kid && ';' !in secret
    ensures ParseRetired(lead + kid + trail + "=" + secret) == if secret != "" then [KeyMaterial(kid, secret)] else []
  {
    var before := lead + kid + trail;
    BlanksSeparateNothing(lead);
    BlanksSeparateNothing(trail);
    SplitWhole(before + "=" + secret, ';');
    SplitOnceAt(before, secret, '=');
    TrimOf(lead, kid, trail, IsWhitespace);
    OneEntry(before + "=" + secret);
  }

  /** An entry with no separator, or with nothing but blanks before it, is skipped. */
  lemma MalformedEntryIsSkipped(blanks: string, rest: string)
    requires ';' !in rest && All(blanks, IsWhitespace)
    ensures '=' !in rest ==> ParseRetired(rest) == []
    ensures ParseRetired(blanks + "=" + rest) == []
  {
    BlanksSeparateNothing(blanks);
    SplitWhole(rest, ';');
    OneEntry(rest);
    if '=' !in rest { NothingToSplit(rest, '='); }
    SplitWhole(blanks + "=" + rest, ';');
    SplitOnceAt(blanks, rest, '=');
    AllTrimmed(blanks);
    OneEntry(blanks + "=" + rest);
  }

  lemma OneEntry(entry: string)
    requires ';' !in entry
    ensures ParseRetired(entry) == ParseEntry(entry)
  {
    SplitWhole(entry, ';');
    assert ParseEntries([entry]) == ParseEntry(entry) + ParseEntries([]);
  }

  lemma BlanksSeparateNothing(blanks: string)
    requires All(blanks, IsWhitespace)
    ensures '=' !in blanks && ';' !in blanks
  {
  }

  lemma {:induction false} NothingToSplit(s: string, sep: char)
    requires sep !in s
    ensures SplitOnce(s, sep).None?
  {
    if s != "" { NothingToSplit(s[1..], sep); }
  }

  lemma AllTrimmed(blanks: string)
    requires All(blanks, IsWhitespace)
    ensures Trim(blanks, IsWhitespace) == ""
  {
    TrimStartOf(blanks, "", IsWhitespace);
    assert blanks + "" == blanks;
  }

  // ----- round trip

  lemma {:induction false} SplitWhole(s: string, sep: char)
    requires sep !in s
    ensures Split(s, sep) == [s]
  {
    if s != "" {
      SplitWhole(s[1..], sep);
      assert s == [s[0]] + s[1..];
    }
  }

  lemma {:induction false} SplitOnceAt(before: string, after: string, sep: char)
    requires sep !in before
    ensures SplitOnce(before + [sep] + after, sep) == Some((before, after))
  {
    if before == "" {
      assert before + [sep] + after == [sep] + after;
    } else {
      assert (before + [sep] + after)[1..] == before[1..] + [sep] + after;
      SplitOnceAt(before[1..], after, sep);
      assert before == [before[0]] + before[1..];
    }
  }

  lemma ParseOnePrinted(key: KeyMaterial)
    requires Printable(key)
    ensures ParseRetired(PrintKey(key)) == [key]
  {
    SplitWhole(PrintKey(key), ';');
    SplitOnceAt(key.kid, key.secret, '=');
    assert "" + key.kid + "" == key.kid;
    TrimOf("", key.kid, "", IsWhitespace);
    assert ParseEntry(PrintKey(key)) == [key];
    assert ParseEntries([PrintKey(key)]) == ParseEntry(PrintKey(key)) + ParseEntries([]);
  }

  lemma {:induction false} ParsePrinted(keys: seq<KeyMaterial>)
    requires forall k | k in keys :: Printable(k)
    ensures ParseRetired(Print(keys)) == keys
  {
    if |keys| == 1 {
      ParseOnePrinted(keys[0]);
    } else if keys != [] {
      ParseOnePrinted(keys[0]);
      ParsePrinted(keys[1..]);
      ParseJoined(PrintKey(keys[0]), Print(keys[1..]));
    }
  }

  lemma {:induction false} SplitPieces(s: string, sep: char)
    ensures forall piece | piece in Split(s, sep) :: sep !in piece
  {
    if s != "" { SplitPieces(s[1..], sep); }
  }

  lemma {:induction false} SplitOnceParts(s: string, sep: char)
    ensures SplitOnce(s, sep).Some? ==>
              && s == SplitOnce(s, sep).value.0 + [sep] + SplitOnce(s, sep).value.1
              && sep !in SplitOnce(s, sep).value.0
  {
    if s != "" && s[0] != sep { SplitOnceParts(s[1..], sep); }
  }

  lemma ParsedEntryPrintable(entry: string)
    requires ';' !in entry
    ensures forall k | k in ParseEntry(entry) :: Printable(k)
  {
    SplitOnceParts(entry, '=');
    if SplitOnce(entry, '=').Some? {
      var a, b := TrimSplits(SplitOnce(entry, '=').value.0, IsWhitespace);
    }
  }

  lemma {:induction false} ParsedEntriesPrintable(entries: seq<string>)
    requires forall e | e in entries :: ';' !in e
    ensures forall k | k in ParseEntries(entries) :: Printable(k)
  {
    if entries != [] {
      ParsedEntryPrintable(entries[0]);
      ParsedEntriesPrintable(entries[1..]);
    }
  }

  /** The parser inverts the printer exactly on the lists it can itself produce. */
  lemma RoundTripExactlyWhenPrintable(keys: seq<KeyMaterial>)
    ensures ParseRetired(Print(keys)) == keys <==> forall k | k in keys :: Printable(k)
  {
    if forall k | k in keys :: Printable(k) { ParsePrinted(keys); }
    SplitPieces(Print(keys), ';');
    ParsedEntriesPrintable(Split(Print(keys), ';'));
  }

  /** Hence printing what was parsed and parsing it again changes nothing. */
  lemma ReparseIsStable(raw: string)
    ensures ParseRetired(Print(ParseRetired(raw))) == ParseRetired(raw)
  {
    SplitPieces(raw, ';');
    ParsedEntriesPrintable(Split(raw, ';'));
    ParsePrinted(ParseRetired(raw));
  }
}
