/**
 * serialize_field, serialize_dict and deserialize_attributes: the walk over a
 * dict/list/scalar tree that turns datetimes into fixed-width UTC text and
 * records, in a parallel "conversion" tree, the marker 'date' where it did so.
 */
module Attributes {
  import opened Wrappers
  import opened Digits
  import opened Values

  /** The marker serialize_field records for a datetime. */
  const DATE_MARKER: string := "date"

  datatype AttrError =
    /** Python 2's datetime.strftime refuses years before 1900. */
    | UnformattableYear
    /** ValueError "Unknown convert_type": a marker other than None and 'date'. */
    | UnknownConvertType(marker: Value)
    /** ValueError from strptime: the text does not match '%Y-%m-%dT%H:%M:%S.%f'. */
    | BadDateText(text: string)
    /** TypeError from strptime: the value under a 'date' marker is not a string. */
    | NotADateString(data: Value)
    /** TypeError: the conversion data cannot be iterated alongside a list. */
    | ConversionMismatch
    /** Looking a dict entry up in the conversion data, or deserialising it, failed;
        which exception Python raises then follows its dict iteration order. */
    | DictEntryFailed

  /** The data part and the conversion part that serialize_field returns when tracking. */
  datatype Serialized = Serialized(data: Value, conversion: Value)

  datatype SerializedDict = SerializedDict(data: map<string, Value>, conversion: map<string, Value>)

  // ---------------------------------------------------------------------------
  // '%Y-%m-%dT%H:%M:%S.%f'
  // ---------------------------------------------------------------------------

  /** Widths strftime gives the seven fields of '%Y-%m-%dT%H:%M:%S.%f', and the six separators between them. */
  const WIDTHS: seq<nat> := [4, 2, 2, 2, 2, 2, 6]
  const SEPARATORS: string := "--T::."

  /** Zero-padded fields joined by the separators. */
  function FormatFields(vals: seq<nat>, widths: seq<nat>, seps: string): (s: string)
    requires |vals| == |widths| == |seps| + 1
    decreases |seps|
  {
    if seps == [] then Padded(vals[0], widths[0])
    else Padded(vals[0], widths[0]) + [seps[0]] + FormatFields(vals[1..], widths[1..], seps[1..])
  }

  /**
   * What the regular expression of Python 2.7's _strptime matches for one
   * directive: %Y exactly four digits; %m, %d, %H, %M and %S one or two;
   * %f one to six, read as a fraction of a second; %d also a space and one
   * non-zero digit.  The regex's own value ranges are wider than what
   * datetime() then accepts, so they are left to ValidDateTime.
   */
  datatype Directive = Directive(least: nat, most: nat, spaced: bool, fraction: bool)

  const DIRECTIVES: seq<Directive> := [
    Directive(4, 4, false, false),
    Directive(1, 2, false, false),
    Directive(1, 2, true, false),
    Directive(1, 2, false, false),
    Directive(1, 2, false, false),
    Directive(1, 2, false, false),
    Directive(1, 6, false, true)]

  /** The ASCII lower case the IGNORECASE flag compares separators in. */
  function Lower(c: char): char {
    if 'A' <= c <= 'Z' then (c as int + 32) as char else c
  }

  /** The number of digits s starts with. */
  function DigitRun(s: string): (n: nat)
    ensures n <= |s| && AllDigits(s[..n]) && (n < |s| ==> !IsDigit(s[n]))
  {
    if s == [] || !IsDigit(s[0]) then 0
    else
      var n := 1 + DigitRun(s[1..]);
      assert forall i :: 1 <= i < n ==> s[..n][i] == s[1..][..n - 1][i - 1];
      n
  }

  /** A space followed by a digit 1-9, the padded form of %d. */
  predicate SpacePadded(t: string) {
    |t| == 2 && t[0] == ' ' && '1' <= t[1] <= '9'
  }

  /**
   * The length of the text the directive takes at the start of s.  The
   * directive consumes digits only (or a space and a digit), and a
   * separator or the end of the text must follow it, so it takes the
   * whole run of digits or fails.
   */
  function DirectiveLength(s: string, d: Directive): (w: Option<nat>)
    ensures w.Some? ==> w.value <= |s| && w.value <= d.most + 2 && (AllDigits(s[..w.value]) || SpacePadded(s[..w.value]))
  {
    if d.spaced && |s| >= 2 && SpacePadded(s[..2]) then Some(2)
    else
      var n := DigitRun(s);
      if d.least <= n <= d.most then Some(n) else None
  }

  /** The number a directive's text stands for; %f's digits are padded on the right to six. */
  function DirectiveValue(t: string, d: Directive): nat
    requires AllDigits(t) || SpacePadded(t)
  {
    if !AllDigits(t) then DigitValue(t[1])
    else if d.fraction && |t| <= d.most then ParseDigits(t).value * Pow10(d.most - |t|)
    else ParseDigits(t).value
  }

  /**
   * Reads the fields back as format_regex.match does, then the check that
   * no unconverted data remains; None wherever strptime raises ValueError.
   */
  function ParseFields(s: string, ds: seq<Directive>, seps: string): (r: Option<seq<nat>>)
    requires |ds| == |seps| + 1
    ensures r.Some? ==> |r.value| == |ds|
    decreases |seps|
  {
    match DirectiveLength(s, ds[0])
    case None => None
    case Some(w) =>
      var v := DirectiveValue(s[..w], ds[0]);
      if seps == [] then (if w == |s| then Some([v]) else None)
      else if w == |s| || Lower(s[w]) != Lower(seps[0]) then None
      else match ParseFields(s[w + 1..], ds[1..], seps[1..])
        case None => None
        case Some(rest) => Some([v] + rest)
  }

  /** The widest text the directives can take. */
  function MostTotal(ds: seq<Directive>): nat {
    if ds == [] then 0 else ds[0].most + MostTotal(ds[1..])
  }

  function Mosts(ds: seq<Directive>): (ws: seq<nat>)
    ensures |ws| == |ds| && forall i :: 0 <= i < |ds| ==> ws[i] == ds[i].most
  {
    seq(|ds|, i requires 0 <= i < |ds| => ds[i].most)
  }

  /** A run of digits followed by a non-digit is read whole. */
  lemma {:induction false} DigitRunOf(head: string, tail: string)
    requires AllDigits(head) && (tail == [] || !IsDigit(tail[0]))
    ensures DigitRun(head + tail) == |head|
    decreases |head|
  {
    if head == [] {
      assert head + tail == tail;
    } else {
      assert (head + tail)[1..] == head[1..] + tail;
      DigitRunOf(head[1..], tail);
    }
  }

  /** One field at its full width, its separator, then the rest of the layout. */
  lemma ParseFieldsStep(head: string, tail: string, ds: seq<Directive>, seps: string, v: nat, rest: seq<nat>)
    requires |ds| == |seps| + 1 && seps != []
    requires |head| == ds[0].most && ds[0].least <= |head| && head != [] && ParseDigits(head) == Some(v)
    requires !IsDigit(seps[0])
    requires ParseFields(tail, ds[1..], seps[1..]) == Some(rest)
    ensures ParseFields(head + [seps[0]] + tail, ds, seps) == Some([v] + rest)
  {
    FieldThen(head, seps[0], tail, ds, seps, rest);
    assert Pow10(0) == 1;
  }

  /** The last field at its full width, and nothing after it. */
  lemma LastFieldParses(head: string, ds: seq<Directive>, v: nat)
    requires |ds| == 1 && |head| == ds[0].most && ds[0].least <= |head| && head != [] && ParseDigits(head) == Some(v)
    ensures ParseFields(head, ds, []) == Some([v])
  {
    DigitRunOf(head, []);
    assert head + [] == head && head[..|head|] == head;
    assert IsDigit(head[0]);
    assert Pow10(0) == 1;
  }

  lemma {:induction false} ParseFormatFields(vals: seq<nat>, ds: seq<Directive>, seps: string)
    requires |vals| == |ds| == |seps| + 1
    requires Fitting(vals, ds)
    requires forall i :: 0 <= i < |seps| ==> !IsDigit(seps[i])
    ensures ParseFields(FormatFields(vals, Mosts(ds), seps), ds, seps) == Some(vals)
    decreases |seps|
  {
    var head := Padded(vals[0], ds[0].most);
    ParsePadded(vals[0], ds[0].most);
    if seps == [] {
      LastFieldParses(head, ds, vals[0]);
      assert vals == [vals[0]];
    } else {
      FittingTail(vals, ds);
      assert forall i :: 0 <= i < |seps| - 1 ==> seps[1..][i] == seps[i + 1];
      ParseFormatFields(vals[1..], ds[1..], seps[1..]);
      assert Mosts(ds)[1..] == Mosts(ds[1..]);
      ParseFieldsStep(head, FormatFields(vals[1..], Mosts(ds[1..]), seps[1..]), ds, seps, vals[0], vals[1..]);
      assert vals == [vals[0]] + vals[1..];
    }
  }

  /** Each value fits its directive's full width, and that width is at least one. */
  predicate Fitting(vals: seq<nat>, ds: seq<Directive>)
    requires |vals| == |ds|
  {
    forall i :: 0 <= i < |ds| ==> 1 <= ds[i].most && ds[i].least <= ds[i].most && vals[i] < Pow10(ds[i].most)
  }

  lemma FittingTail(vals: seq<nat>, ds: seq<Directive>)
    requires |vals| == |ds| > 0 && Fitting(vals, ds)
    ensures Fitting(vals[1..], ds[1..])
  {
    forall i | 0 <= i < |ds| - 1
      ensures 1 <= ds[1..][i].most && ds[1..][i].least <= ds[1..][i].most && vals[1..][i] < Pow10(ds[1..][i].most)
    {
      assert vals[1..][i] == vals[i + 1] && ds[1..][i] == ds[i + 1];
    }
  }

  /** A text the parser accepts is at most as long as every field at its widest. */
  lemma {:induction false} ParseFieldsLength(s: string, ds: seq<Directive>, seps: string)
    requires |ds| == |seps| + 1
    requires forall i :: 0 <= i < |ds| ==> ds[i].spaced ==> 2 <= ds[i].most
    requires ParseFields(s, ds, seps).Some?
    ensures |s| <= MostTotal(ds) + |seps|
    decreases |seps|
  {
    var w := DirectiveLength(s, ds[0]).value;
    assert w <= ds[0].most by {
      assert ds[0].spaced ==> 2 <= ds[0].most;
    }
    if seps != [] {
      assert forall i :: 0 <= i < |ds| - 1 ==> ds[1..][i] == ds[i + 1];
      ParseFieldsLength(s[w + 1..], ds[1..], seps[1..]);
    }
  }

  /** What an accepted text is made of: the first field, a separator, and an accepted rest. */
  lemma ParseFieldsUnfold(s: string, ds: seq<Directive>, seps: string) returns (w: nat)
    requires |ds| == |seps| + 1 && seps != [] && ParseFields(s, ds, seps).Some?
    ensures DirectiveLength(s, ds[0]) == Some(w) && w < |s| && Lower(s[w]) == Lower(seps[0])
    ensures ParseFields(s[w + 1..], ds[1..], seps[1..]).Some?
    ensures ParseFields(s, ds, seps).value == [DirectiveValue(s[..w], ds[0])] + ParseFields(s[w + 1..], ds[1..], seps[1..]).value
  {
    w := DirectiveLength(s, ds[0]).value;
  }

  lemma SplitAround(s: string, w: nat)
    requires w < |s|
    ensures s == s[..w] + [s[w]] + s[w + 1..]
  {
  }

  /**
   * What CanonicalFields asks of the format: a space-padded field is at
   * least two wide, and the separators come from an alphabet without a
   * space in which no two characters differ only in case.
   */
  predicate Layout(ds: seq<Directive>, seps: string, alphabet: string) {
    && (forall i :: 0 <= i < |ds| ==> ds[i].spaced ==> 2 <= ds[i].most)
    && (forall i :: 0 <= i < |seps| ==> seps[i] in alphabet)
    && (forall a, b :: a in alphabet && b in alphabet && Lower(a) == Lower(b) ==> a == b)
    && ' ' !in alphabet
  }

  /** t is made of digits and characters of the alphabet. */
  predicate MadeOf(t: string, alphabet: string) {
    forall i :: 0 <= i < |t| ==> IsDigit(t[i]) || t[i] in alphabet
  }

  /** A full-width field of digits reads back as the number it pads. */
  lemma FullField(t: string, d: Directive)
    requires AllDigits(t) && |t| == d.most
    ensures Padded(DirectiveValue(t, d), d.most) == t
  {
    PaddedParse(t);
    assert Pow10(0) == 1;
  }

  /**
   * A text of the widest length made of digits and separator characters
   * (from an alphabet without a space, in which no two characters differ
   * only in case) is the formatting of the fields it parses to.
   */
  lemma {:induction false} CanonicalFields(s: string, ds: seq<Directive>, seps: string, alphabet: string)
    requires |ds| == |seps| + 1
    requires Layout(ds, seps, alphabet)
    requires ParseFields(s, ds, seps).Some? && |s| == MostTotal(ds) + |seps|
    requires MadeOf(s, alphabet)
    ensures FormatFields(ParseFields(s, ds, seps).value, Mosts(ds), seps) == s
    decreases |seps|
  {
    var vals := ParseFields(s, ds, seps).value;
    assert Mosts(ds)[1..] == Mosts(ds[1..]);
    if seps == [] {
      var w := DirectiveLength(s, ds[0]).value;
      assert s[..w] == s;
      FullField(s, ds[0]);
    } else {
      var w := ParseFieldsUnfold(s, ds, seps);
      CanonicalRest(s, ds, seps, alphabet, w);
      CanonicalFields(s[w + 1..], ds[1..], seps[1..], alphabet);
      FullField(s[..w], ds[0]);
      SplitAround(s, w);
    }
  }

  /** What CanonicalFields needs of the text after the first field and its separator. */
  lemma CanonicalRest(s: string, ds: seq<Directive>, seps: string, alphabet: string, w: nat)
    requires |ds| == |seps| + 1 && seps != []
    requires Layout(ds, seps, alphabet)
    requires |s| == MostTotal(ds) + |seps|
    requires MadeOf(s, alphabet)
    requires DirectiveLength(s, ds[0]) == Some(w) && w < |s| && Lower(s[w]) == Lower(seps[0])
    requires ParseFields(s[w + 1..], ds[1..], seps[1..]).Some?
    ensures w == ds[0].most && s[w] == seps[0] && AllDigits(s[..w])
    ensures Layout(ds[1..], seps[1..], alphabet)
    ensures |s[w + 1..]| == MostTotal(ds[1..]) + |seps[1..]|
    ensures MadeOf(s[w + 1..], alphabet)
  {
    var tail := s[w + 1..];
    forall i | 0 <= i < |ds| - 1
      ensures ds[1..][i].spaced ==> 2 <= ds[1..][i].most
    {
      assert ds[1..][i] == ds[i + 1];
    }
    assert forall i :: 0 <= i < |seps| - 1 ==> seps[1..][i] == seps[i + 1];
    ParseFieldsLength(tail, ds[1..], seps[1..]);
    assert s[w] == seps[0] by {
      assert !IsDigit(s[w]);
    }
    assert forall i :: 0 <= i < |tail| ==> tail[i] == s[w + 1 + i];
    assert !SpacePadded(s[..w]) by {
      if w == 2 {
        assert s[0] != ' ';
      }
    }
  }

  lemma {:induction false} FormatFieldsShape(vals: seq<nat>, widths: seq<nat>, seps: string)
    requires |vals| == |widths| == |seps| + 1
    ensures var s := FormatFields(vals, widths, seps);
      && |s| == Sum(widths) + |seps|
      && MadeOf(s, seps)
    decreases |seps|
  {
    if seps != [] {
      FormatFieldsShape(vals[1..], widths[1..], seps[1..]);
      var head := Padded(vals[0], widths[0]);
      var tail := FormatFields(vals[1..], widths[1..], seps[1..]);
      var s := head + [seps[0]] + tail;
      forall i | 0 <= i < |s|
        ensures IsDigit(s[i]) || s[i] in seps
      {
        if i > |head| {
          assert s[i] == tail[i - |head| - 1];
        }
      }
    }
  }

  function Sum(ws: seq<nat>): nat {
    if ws == [] then 0 else ws[0] + Sum(ws[1..])
  }

  function Components(d: Instant): (c: seq<nat>)
    ensures |c| == 7
  {
    [d.year, d.month, d.day, d.hour, d.minute, d.second, d.microsecond]
  }

  /** strftime('%Y-%m-%dT%H:%M:%S.%f') of a UTC datetime. */
  function FormatDate(d: Instant): string {
    FormatFields(Components(d), WIDTHS, SEPARATORS)
  }

  /** strptime(s, '%Y-%m-%dT%H:%M:%S.%f'); None where strptime raises ValueError. */
  function ParseDate(s: string): Option<Instant> {
    match ParseFields(s, DIRECTIVES, SEPARATORS)
    case None => None
    case Some(c) => DateOf(c)
  }

  /** datetime(*fields): None where the constructor raises ValueError. */
  function DateOf(c: seq<nat>): Option<Instant>
    requires |c| == 7
  {
    var d := DateTime(c[0], c[1], c[2], c[3], c[4], c[5], c[6]);
    if ValidDateTime(d) then Some(d) else None
  }

  lemma Pow10Widths()
    ensures Pow10(2) == 100 && Pow10(4) == 10000 && Pow10(6) == 1000000
  {
    assert Pow10(1) == 10;
    assert Pow10(3) == 1000;
    assert Pow10(5) == 100000;
  }

  /** The directives' widest fields are the widths strftime writes. */
  lemma DirectivesWidths()
    ensures Mosts(DIRECTIVES) == WIDTHS
  {
    assert Mosts(DIRECTIVES) == WIDTHS;
  }

  lemma DirectivesTotal()
    ensures MostTotal(DIRECTIVES) == 20 && |SEPARATORS| == 6
  {
    assert MostTotal(DIRECTIVES[6..]) == 6;
    assert MostTotal(DIRECTIVES[5..]) == 8;
    assert MostTotal(DIRECTIVES[4..]) == 10;
    assert MostTotal(DIRECTIVES[3..]) == 12;
    assert MostTotal(DIRECTIVES[2..]) == 14;
    assert MostTotal(DIRECTIVES[1..]) == 16;
  }

  lemma WidthsTotal()
    ensures Sum(WIDTHS) == 20
  {
    assert Sum(WIDTHS[6..]) == 6;
    assert Sum(WIDTHS[5..]) == 8;
    assert Sum(WIDTHS[4..]) == 10;
    assert Sum(WIDTHS[3..]) == 12;
    assert Sum(WIDTHS[2..]) == 14;
    assert Sum(WIDTHS[1..]) == 16;
  }

  lemma DirectivesBounds()
    ensures forall i :: 0 <= i < |DIRECTIVES| ==> 1 <= DIRECTIVES[i].most && DIRECTIVES[i].least <= DIRECTIVES[i].most
    ensures forall i :: 0 <= i < |DIRECTIVES| ==> DIRECTIVES[i].spaced ==> 2 <= DIRECTIVES[i].most
  {
  }

  /** Every datetime comes back from its text. */
  lemma ParseFormatDate(d: Instant)
    ensures ParseDate(FormatDate(d)) == Some(d)
  {
    Pow10Widths();
    DirectivesBounds();
    assert Fitting(Components(d), DIRECTIVES);
    ParseFormatFields(Components(d), DIRECTIVES, SEPARATORS);
    DirectivesWidths();
  }

  /** The separators differ from each other even ignoring case, and none is a space or a digit. */
  lemma SeparatorsAlphabet()
    ensures Layout(DIRECTIVES, SEPARATORS, SEPARATORS)
  {
    assert forall c :: c in SEPARATORS ==> c == '-' || c == 'T' || c == ':' || c == '.';
    DirectivesBounds();
  }

  /** The fields of an accepted text are the components of the datetime it gives. */
  lemma ParsedComponents(s: string)
    requires ParseDate(s).Some?
    ensures Components(ParseDate(s).value) == ParseFields(s, DIRECTIVES, SEPARATORS).value
  {
    var c := ParseFields(s, DIRECTIVES, SEPARATORS).value;
    DateOfComponents(c);
  }

  lemma DateOfComponents(c: seq<nat>)
    requires |c| == 7 && DateOf(c).Some?
    ensures Components(DateOf(c).value) == c
  {
  }

  /** A 26-character text of digits and separators that strptime accepts is the strftime text. */
  lemma CanonicalDate(s: string)
    requires ParseDate(s).Some?
    requires |s| == 26 && MadeOf(s, SEPARATORS)
    ensures FormatDate(ParseDate(s).value) == s
  {
    ParsedComponents(s);
    SeparatorsAlphabet();
    DirectivesTotal();
    CanonicalFields(s, DIRECTIVES, SEPARATORS, SEPARATORS);
    DirectivesWidths();
  }

  /**
   * A text strptime accepts is the strftime text of the datetime it returns
   * exactly when it is 26 characters of digits and the separators '-', 'T',
   * ':' and '.': no space-padded day, no lower-case 't', no field shorter
   * than strftime writes it.
   */
  lemma FormatParseDate(s: string)
    requires ParseDate(s).Some?
    ensures FormatDate(ParseDate(s).value) == s <==>
      (|s| == 26 && MadeOf(s, SEPARATORS))
  {
    FormatFieldsShape(Components(ParseDate(s).value), WIDTHS, SEPARATORS);
    WidthsTotal();
    if |s| == 26 && MadeOf(s, SEPARATORS) {
      CanonicalDate(s);
    }
  }

  /** A field of digits of an admitted width, a separator matching up to case, then an accepted rest. */
  lemma FieldThen(head: string, sep: char, tail: string, ds: seq<Directive>, seps: string, rest: seq<nat>)
    requires |ds| == |seps| + 1 && seps != []
    requires head != [] && AllDigits(head) && ds[0].least <= |head| <= ds[0].most
    requires !IsDigit(sep) && Lower(sep) == Lower(seps[0])
    requires ParseFields(tail, ds[1..], seps[1..]) == Some(rest)
    ensures ParseFields(head + [sep] + tail, ds, seps) == Some([DirectiveValue(head, ds[0])] + rest)
  {
    FieldLength(head, sep, tail, ds[0]);
  }

  /** The directive takes the whole run of digits before the separator. */
  lemma FieldLength(head: string, sep: char, tail: string, d: Directive)
    requires head != [] && AllDigits(head) && d.least <= |head| <= d.most && !IsDigit(sep)
    ensures var s := head + [sep] + tail;
      && DirectiveLength(s, d) == Some(|head|) && |head| < |s|
      && s[..|head|] == head && s[|head|] == sep && s[|head| + 1..] == tail
  {
    var s := head + [sep] + tail;
    assert s == head + ([sep] + tail);
    DigitRunOf(head, [sep] + tail);
    assert !SpacePadded(s[..2]) by {
      assert s[0] == head[0];
    }
  }

  /** The last field: digits of an admitted width and nothing after them. */
  lemma LastField(t: string, ds: seq<Directive>)
    requires |ds| == 1 && t != [] && AllDigits(t) && ds[0].least <= |t| <= ds[0].most
    ensures ParseFields(t, ds, []) == Some([DirectiveValue(t, ds[0])])
  {
    DigitRunOf(t, []);
    assert t + [] == t && t[..|t|] == t;
    assert IsDigit(t[0]);
  }

  /** A space-padded %d, a separator matching up to case, then an accepted rest. */
  lemma SpacedFieldThen(d: char, sep: char, tail: string, ds: seq<Directive>, seps: string, rest: seq<nat>)
    requires |ds| == |seps| + 1 && seps != [] && ds[0].spaced
    requires '1' <= d <= '9' && Lower(sep) == Lower(seps[0])
    requires ParseFields(tail, ds[1..], seps[1..]) == Some(rest)
    ensures ParseFields([' ', d] + [sep] + tail, ds, seps) == Some([DigitValue(d)] + rest)
  {
    var s := [' ', d] + [sep] + tail;
    assert s[..2] == [' ', d];
    assert s[2] == sep;
    assert s[3..] == tail;
    assert !AllDigits(s[..2]);
  }

  /** What a field of a given width stands for: %f's digits are padded on the right to six. */
  function Scaled(vals: seq<nat>, ws: seq<nat>, ds: seq<Directive>): (r: seq<nat>)
    requires |vals| == |ws| == |ds|
    ensures |r| == |vals|
  {
    seq(|vals|, i requires 0 <= i < |vals| => if ds[i].fraction && ws[i] <= ds[i].most then vals[i] * Pow10(ds[i].most - ws[i]) else vals[i])
  }

  /** Each value fits a width the directive admits. */
  predicate FitsWidths(vals: seq<nat>, ws: seq<nat>, ds: seq<Directive>)
    requires |vals| == |ws| == |ds|
  {
    forall i :: 0 <= i < |ds| ==> 1 <= ws[i] && ds[i].least <= ws[i] <= ds[i].most && vals[i] < Pow10(ws[i])
  }

  lemma FitsTail(vals: seq<nat>, ws: seq<nat>, ds: seq<Directive>)
    requires |vals| == |ws| == |ds| > 0 && FitsWidths(vals, ws, ds)
    ensures FitsWidths(vals[1..], ws[1..], ds[1..])
    ensures Scaled(vals, ws, ds) == [Scaled(vals, ws, ds)[0]] + Scaled(vals[1..], ws[1..], ds[1..])
  {
    forall i | 0 <= i < |ds| - 1
      ensures 1 <= ws[1..][i] && ds[1..][i].least <= ws[1..][i] <= ds[1..][i].most && vals[1..][i] < Pow10(ws[1..][i])
    {
      assert vals[1..][i] == vals[i + 1] && ws[1..][i] == ws[i + 1] && ds[1..][i] == ds[i + 1];
    }
  }

  /**
   * Fields written with any width their directive admits, separated by
   * characters equal to the format's up to case, read back as the values
   * they stand for: strptime takes "2015-1-5t1:2:3.4" for 2015-01-05
   * 01:02:03.400000.
   */
  lemma {:induction false} ParseWidthFields(vals: seq<nat>, ws: seq<nat>, ds: seq<Directive>, seps: string, written: string)
    requires |vals| == |ws| == |ds| == |seps| + 1 && |written| == |seps|
    requires FitsWidths(vals, ws, ds)
    requires SameUpToCase(written, seps)
    ensures ParseFields(FormatFields(vals, ws, written), ds, seps) == Some(Scaled(vals, ws, ds))
    decreases |seps|
  {
    var head := Padded(vals[0], ws[0]);
    WidthHead(vals, ws, ds);
    FitsTail(vals, ws, ds);
    if seps == [] {
      LastField(head, ds);
      assert Scaled(vals, ws, ds) == [Scaled(vals, ws, ds)[0]];
    } else {
      SameUpToCaseTail(written, seps);
      ParseWidthFields(vals[1..], ws[1..], ds[1..], seps[1..], written[1..]);
      FieldThen(head, written[0], FormatFields(vals[1..], ws[1..], written[1..]), ds, seps, Scaled(vals[1..], ws[1..], ds[1..]));
    }
  }

  /** The written separators are non-digits equal to the format's up to case. */
  predicate SameUpToCase(written: string, seps: string)
    requires |written| == |seps|
  {
    forall i :: 0 <= i < |seps| ==> !IsDigit(written[i]) && Lower(written[i]) == Lower(seps[i])
  }

  lemma SameUpToCaseTail(written: string, seps: string)
    requires |written| == |seps| > 0 && SameUpToCase(written, seps)
    ensures SameUpToCase(written[1..], seps[1..]) && !IsDigit(written[0]) && Lower(written[0]) == Lower(seps[0])
  {
    assert forall i :: 0 <= i < |seps| - 1 ==> seps[1..][i] == seps[i + 1] && written[1..][i] == written[i + 1];
  }

  /** The first field, written at its width, is a field the directive admits and stands for the first scaled value. */
  lemma WidthHead(vals: seq<nat>, ws: seq<nat>, ds: seq<Directive>)
    requires |vals| == |ws| == |ds| > 0 && FitsWidths(vals, ws, ds)
    ensures var head := Padded(vals[0], ws[0]);
      && head != [] && AllDigits(head) && ds[0].least <= |head| <= ds[0].most
      && DirectiveValue(head, ds[0]) == Scaled(vals, ws, ds)[0]
  {
    ParsePadded(vals[0], ws[0]);
  }

  /**
   * A year, then one-digit month, day, time fields and fraction, with a
   * lower-case 't': the fraction is scaled to microseconds, so that
   * "2015-1-5t1:2:3.4" stands for 2015-01-05 01:02:03.400000.
   */
  lemma OneDigitFieldsDate(vals: seq<nat>, ws: seq<nat>, written: string)
    requires |vals| == 7 && 1000 <= vals[0] < 10000 && forall i :: 1 <= i < 7 ==> vals[i] < 10
    requires ws == [4, 1, 1, 1, 1, 1, 1] && written == "--t::."
    ensures ParseDate(FormatFields(vals, ws, written)) == DateOf(vals[..6] + [vals[6] * 100000])
  {
    OneDigitWidths(vals);
    LowerCaseT();
    ParseWidthFields(vals, ws, DIRECTIVES, SEPARATORS, written);
    ScaledOneDigits(vals);
  }

  lemma OneDigitWidths(vals: seq<nat>)
    requires |vals| == 7 && 1000 <= vals[0] < 10000 && forall i :: 1 <= i < 7 ==> vals[i] < 10
    ensures FitsWidths(vals, [4, 1, 1, 1, 1, 1, 1], DIRECTIVES)
  {
    Pow10Widths();
    assert Pow10(1) == 10;
  }

  /** "--t::." matches the separators up to case. */
  lemma LowerCaseT()
    ensures |SEPARATORS| == 6
    ensures SameUpToCase("--t::.", SEPARATORS)
  {
  }

  lemma ScaledOneDigits(vals: seq<nat>)
    requires |vals| == 7
    ensures Scaled(vals, [4, 1, 1, 1, 1, 1, 1], DIRECTIVES) == vals[..6] + [vals[6] * 100000]
  {
    var c := Scaled(vals, [4, 1, 1, 1, 1, 1, 1], DIRECTIVES);
    forall i | 0 <= i < 6
      ensures c[i] == vals[i]
    {
      assert !DIRECTIVES[i].fraction;
    }
    assert Pow10(5) == 100000 by {
      Pow10Widths();
      assert Pow10(5) == 10 * Pow10(4);
    }
    assert c[6] == vals[6] * 100000;
  }

  // ---------------------------------------------------------------------------
  // serialize_field
  // ---------------------------------------------------------------------------

  /** Whether Python 2's strftime formats every datetime in v. */
  predicate Formattable(v: Value) {
    match v
    case Date(d) => d.year >= 1900
    case List(s) => forall i :: 0 <= i < |s| ==> Formattable(s[i])
    case Tuple(s) => forall i :: 0 <= i < |s| ==> Formattable(s[i])
    case Dict(m) => forall k :: k in m ==> Formattable(m[k])
    case _ => true
  }

  /** The data part: same tree, datetimes as text, tuples as lists. */
  function SerializeData(v: Value): Value {
    match v
    case Dict(m) => Dict(map k | k in m :: SerializeData(m[k]))
    case List(s) => List(seq(|s|, i requires 0 <= i < |s| => SerializeData(s[i])))
    case Tuple(s) => List(seq(|s|, i requires 0 <= i < |s| => SerializeData(s[i])))
    case Date(d) => Str(FormatDate(d))
    case _ => v
  }

  /** The conversion part: 'date' where a datetime was, None at other scalars. */
  function SerializeConv(v: Value): Value {
    match v
    case Dict(m) => Dict(map k | k in m :: SerializeConv(m[k]))
    case List(s) => List(seq(|s|, i requires 0 <= i < |s| => SerializeConv(s[i])))
    case Tuple(s) => List(seq(|s|, i requires 0 <= i < |s| => SerializeConv(s[i])))
    case Date(_) => Str(DATE_MARKER)
    case _ => Null
  }

  /** serialize_field(v, track_conversion=True); without tracking Python returns the data part alone. */
  function SerializeField(v: Value): (r: Result<Serialized, AttrError>)
    ensures r.Ok? <==> Formattable(v)
    ensures r.Err? ==> r.error == UnformattableYear
  {
    if Formattable(v) then Ok(Serialized(SerializeData(v), SerializeConv(v))) else Err(UnformattableYear)
  }

  // ---------------------------------------------------------------------------
  // serialize_dict
  // ---------------------------------------------------------------------------

  /** rename_fields.get(k, k) */
  function Renamed(rename: map<string, string>, k: string): string {
    if k in rename then rename[k] else k
  }

  predicate Kept(d: map<string, Value>, remove: set<string>, k: string) {
    k in d && k !in remove
  }

  /** No two kept top-level keys are renamed to the same key. */
  ghost predicate RenamesDistinct(d: map<string, Value>, remove: set<string>, rename: map<string, string>) {
    forall k1, k2 :: Kept(d, remove, k1) && Kept(d, remove, k2) && k1 != k2 ==> Renamed(rename, k1) != Renamed(rename, k2)
  }

  /**
   * serialize_dict(d, remove_fields, rename_fields, track_conversion=True):
   * removal and renaming act on the top level only; each kept value is
   * serialised whole.
   */
  function SerializeDict(d: map<string, Value>, remove: set<string>, rename: map<string, string>): (r: Result<SerializedDict, AttrError>)
    requires RenamesDistinct(d, remove, rename)
    ensures r.Ok? <==> forall k :: Kept(d, remove, k) ==> Formattable(d[k])
  {
    if forall k :: k in d && k !in remove ==> Formattable(d[k]) then
      Ok(SerializedDict(
        map k | k in d && k !in remove :: Renamed(rename, k) := SerializeData(d[k]),
        map k | k in d && k !in remove :: Renamed(rename, k) := SerializeConv(d[k])))
    else Err(UnformattableYear)
  }

  /** Every kept key appears under its new name with its serialised value, and no other key appears. */
  lemma SerializeDictEntries(d: map<string, Value>, remove: set<string>, rename: map<string, string>)
    requires RenamesDistinct(d, remove, rename)
    requires SerializeDict(d, remove, rename).Ok?
    ensures var sd := SerializeDict(d, remove, rename).value;
      && sd.data.Keys == sd.conversion.Keys
      && (forall t :: t in sd.data <==> exists k :: Kept(d, remove, k) && Renamed(rename, k) == t)
      && (forall k :: Kept(d, remove, k) ==>
           && sd.data[Renamed(rename, k)] == SerializeData(d[k])
           && sd.conversion[Renamed(rename, k)] == SerializeConv(d[k]))
  {
    var sd := SerializeDict(d, remove, rename).value;
    forall k | Kept(d, remove, k)
      ensures sd.data[Renamed(rename, k)] == SerializeData(d[k])
      ensures sd.conversion[Renamed(rename, k)] == SerializeConv(d[k])
    {
      var t := Renamed(rename, k);
      assert t in sd.data;
      var k' :| k' in d && k' !in remove && Renamed(rename, k') == t && sd.data[t] == SerializeData(d[k']);
      assert k' == k;
      var k'' :| k'' in d && k'' !in remove && Renamed(rename, k'') == t && sd.conversion[t] == SerializeConv(d[k'']);
      assert k'' == k;
    }
  }

  // ---------------------------------------------------------------------------
  // deserialize_attributes
  // ---------------------------------------------------------------------------

  /** A set of one element holds nothing else. */
  lemma SingletonKeys(keys: set<string>)
    requires |keys| == 1
    ensures forall a, b :: a in keys && b in keys ==> a == b
  {
    var k :| k in keys;
    assert keys == {k} by {
      assert |keys - {k}| == 0;
    }
  }

  /** The one key of a one-entry dict. */
  function OnlyKey(fields: map<string, Value>): (k: string)
    requires |fields| == 1
    ensures fields.Keys == {k}
  {
    SingletonKeys(fields.Keys);
    var k :| k in fields.Keys;
    k
  }

  /**
   * What zip(data, conversion) pairs a list's items with, if the conversion
   * data is iterable: a list's or tuple's items, a string's characters, a
   * dict's keys.  The order of two or more keys is Python's dict order,
   * which the model leaves open, so such a dict gives None.
   */
  function ZipPartner(conv: Value): (r: Option<seq<Value>>)
    ensures conv.Dict? && |conv.fields| == 0 ==> r == Some([])
    ensures conv.Dict? && |conv.fields| == 1 ==> r.Some? && |r.value| == 1 && r.value[0].Str? && r.value[0].text in conv.fields
    ensures !conv.IsSequence() && !conv.Str? && !conv.Dict? ==> r.None?
  {
    match conv
    case List(cs) => Some(cs)
    case Tuple(cs) => Some(cs)
    case Str(t) => Some(seq(|t|, i requires 0 <= i < |t| => Str([t[i]])))
    case Dict(fields) =>
      if |fields| == 0 then Some([])
      else if |fields| == 1 then Some([Str(OnlyKey(fields))])
      else None
    case _ => None
  }

  function SequenceRank(v: Value): nat {
    if v.IsSequence() then |v.items| + 1 else 0
  }

  /** deserialize_attributes(data, conv) */
  function DeserializeAttributes(data: Value, conv: Value): (r: Result<Value, AttrError>)
    decreases data, SequenceRank(data) + 1
  {
    match data
    case Dict(m) =>
      if forall k :: k in m ==> conv.Dict? && k in conv.fields && DeserializeAttributes(m[k], conv.fields[k]).Ok? then
        Ok(Dict(map k | k in m :: DeserializeAttributes(m[k], conv.fields[k]).value))
      else Err(DictEntryFailed)
    case List(s) => DeserializeSequence(data, conv)
    case Tuple(s) => DeserializeSequence(data, conv)
    case _ =>
      if conv == Null then Ok(data)
      else if conv == Str(DATE_MARKER) then
        if !data.Str? then Err(NotADateString(data))
        else match ParseDate(data.text)
          case Some(d) => Ok(Date(d))
          case None => Err(BadDateText(data.text))
      else Err(UnknownConvertType(conv))
  }

  function DeserializeSequence(data: Value, conv: Value): (r: Result<Value, AttrError>)
    requires data.IsSequence()
    decreases data, SequenceRank(data)
  {
    if conv.Dict? && data.items == [] then Ok(List([]))
    else match ZipPartner(conv)
      case None => Err(ConversionMismatch)
      case Some(cs) =>
        match DeserializeItems(data, cs, 0)
        case Ok(xs) => Ok(List(xs))
        case Err(e) => Err(e)
  }

  /** The loop over zip(data, conv) from position i: stops at the shorter of the two, raises at the first item that fails. */
  function DeserializeItems(data: Value, cs: seq<Value>, i: nat): (r: Result<seq<Value>, AttrError>)
    requires data.IsSequence() && i <= |data.items|
    decreases data, |data.items| - i
  {
    if i == |data.items| || i >= |cs| then Ok([])
    else match DeserializeAttributes(data.items[i], cs[i])
      case Err(e) => Err(e)
      case Ok(x) =>
        match DeserializeItems(data, cs, i + 1)
        case Err(e) => Err(e)
        case Ok(rest) => Ok([x] + rest)
  }

  // ---------------------------------------------------------------------------
  // Properties
  // ---------------------------------------------------------------------------

  /** deserialize_attributes(*serialize_field(v, track_conversion=True)) == v, tuples coming back as lists. */
  lemma {:induction false} RoundTrip(v: Value)
    requires Formattable(v)
    ensures DeserializeAttributes(SerializeData(v), SerializeConv(v)) == Ok(Normalize(v))
    decreases v, 1
  {
    if v.Dict? {
      RoundTripDict(v);
    } else if v.IsSequence() {
      RoundTripSequence(v);
    } else if v.Date? {
      RoundTripDate(v);
    } else {
      assert SerializeData(v) == v && SerializeConv(v) == Null && Normalize(v) == v;
    }
  }

  lemma RoundTripDate(v: Value)
    requires v.Date?
    ensures DeserializeAttributes(SerializeData(v), SerializeConv(v)) == Ok(Normalize(v))
  {
    SerializeDate(v);
    ParseFormatDate(v.when);
    DateMarkerText(FormatDate(v.when), v.when);
  }

  /** A datetime is serialised as its text under the 'date' marker. */
  lemma SerializeDate(v: Value)
    requires v.Date?
    ensures SerializeData(v) == Str(FormatDate(v.when)) && SerializeConv(v) == Str(DATE_MARKER) && Normalize(v) == v
  {
  }

  /** A text under the 'date' marker comes back as the datetime it parses to. */
  lemma DateMarkerText(t: string, d: Instant)
    requires ParseDate(t) == Some(d)
    ensures DeserializeAttributes(Str(t), Str(DATE_MARKER)) == Ok(Date(d))
  {
  }

  lemma {:induction false} RoundTripDict(v: Value)
    requires v.Dict? && Formattable(v)
    ensures DeserializeAttributes(SerializeData(v), SerializeConv(v)) == Ok(Normalize(v))
    decreases v, 0
  {
    var data, conv, expected := SerializeData(v).fields, SerializeConv(v).fields, Normalize(v).fields;
    forall k | k in data
      ensures k in conv && DeserializeAttributes(data[k], conv[k]) == Ok(expected[k])
    {
      RoundTrip(v.fields[k]);
    }
    DeserializeDict(data, conv, expected);
  }

  /** A dict whose every entry deserialises against its conversion entry deserialises entrywise. */
  lemma DeserializeDict(data: map<string, Value>, conv: map<string, Value>, expected: map<string, Value>)
    requires data.Keys == expected.Keys
    requires forall k :: k in data ==> k in conv && DeserializeAttributes(data[k], conv[k]) == Ok(expected[k])
    ensures DeserializeAttributes(Dict(data), Dict(conv)) == Ok(Dict(expected))
  {
    assert DeserializeAttributes(Dict(data), Dict(conv)).value.fields == expected;
  }

  lemma {:induction false} RoundTripSequence(v: Value)
    requires v.IsSequence() && Formattable(v)
    ensures DeserializeAttributes(SerializeData(v), SerializeConv(v)) == Ok(Normalize(v))
    decreases v, 0
  {
    var data, conv := SerializeData(v), SerializeConv(v);
    RoundTripItems(v, 0);
    if v.items == [] {
      assert data.items == [] && conv == List([]);
    }
    assert DeserializeItems(data, conv.items, 0).value == Normalize(v).items[0..];
  }

  lemma {:induction false} RoundTripItems(v: Value, i: nat)
    requires v.IsSequence() && Formattable(v) && i <= |v.items|
    ensures SerializeData(v).IsSequence() && |SerializeData(v).items| == |v.items|
    ensures DeserializeItems(SerializeData(v), SerializeConv(v).items, i) == Ok(Normalize(v).items[i..])
    decreases v, 0, |v.items| - i
  {
    var data, conv := SerializeData(v), SerializeConv(v);
    assert |Normalize(v).items| == |conv.items| == |data.items| == |v.items|;
    if i < |v.items| {
      assert data.items[i] == SerializeData(v.items[i]);
      assert conv.items[i] == SerializeConv(v.items[i]);
      assert Normalize(v).items[i] == Normalize(v.items[i]);
      assert Formattable(v.items[i]);
      RoundTrip(v.items[i]);
      RoundTripItems(v, i + 1);
      assert DeserializeAttributes(data.items[i], conv.items[i]) == Ok(Normalize(v).items[i]);
      assert DeserializeItems(data, conv.items, i + 1) == Ok(Normalize(v).items[i + 1..]);
      assert Normalize(v).items[i..] == [Normalize(v).items[i]] + Normalize(v).items[i + 1..];
    } else {
      assert Normalize(v).items[i..] == [];
    }
  }

  /** The conversion tree follows the data: same dict keys, same list lengths, a marker at each scalar. */
  ghost predicate Mirrors(data: Value, conv: Value) {
    match data
    case Dict(m) =>
      conv.Dict? && conv.fields.Keys == m.Keys && forall k :: k in m ==> Mirrors(m[k], conv.fields[k])
    case List(s) =>
      conv.List? && |conv.items| == |s| && forall i :: 0 <= i < |s| ==> Mirrors(s[i], conv.items[i])
    case Tuple(s) =>
      conv.List? && |conv.items| == |s| && forall i :: 0 <= i < |s| ==> Mirrors(s[i], conv.items[i])
    case _ => conv == Null || conv == Str(DATE_MARKER)
  }

  /** conv marks exactly the datetimes of v: 'date' at a datetime, None at any other scalar. */
  ghost predicate MarksDates(v: Value, conv: Value) {
    match v
    case Dict(m) =>
      conv.Dict? && conv.fields.Keys == m.Keys && forall k :: k in m ==> MarksDates(m[k], conv.fields[k])
    case List(s) =>
      conv.List? && |conv.items| == |s| && forall i :: 0 <= i < |s| ==> MarksDates(s[i], conv.items[i])
    case Tuple(s) =>
      conv.List? && |conv.items| == |s| && forall i :: 0 <= i < |s| ==> MarksDates(s[i], conv.items[i])
    case Date(_) => conv == Str(DATE_MARKER)
    case _ => conv == Null
  }

  /** The conversion part mirrors the data part and marks the datetimes of the input. */
  lemma {:induction false} ConversionTreeShape(v: Value)
    ensures Mirrors(SerializeData(v), SerializeConv(v))
    ensures MarksDates(v, SerializeConv(v))
  {
    match v
    case Dict(m) =>
      forall k | k in m
        ensures Mirrors(SerializeData(m[k]), SerializeConv(m[k])) && MarksDates(m[k], SerializeConv(m[k]))
      {
        ConversionTreeShape(m[k]);
      }
    case List(s) =>
      forall i | 0 <= i < |s|
        ensures Mirrors(SerializeData(s[i]), SerializeConv(s[i])) && MarksDates(s[i], SerializeConv(s[i]))
      {
        ConversionTreeShape(s[i]);
      }
    case Tuple(s) =>
      forall i | 0 <= i < |s|
        ensures Mirrors(SerializeData(s[i]), SerializeConv(s[i])) && MarksDates(s[i], SerializeConv(s[i]))
      {
        ConversionTreeShape(s[i]);
      }
    case _ =>
  }

  /** The marking is unique: the conversion part is the only tree that marks v's datetimes. */
  lemma {:induction false} MarksDatesUnique(v: Value, conv: Value)
    requires MarksDates(v, conv)
    ensures conv == SerializeConv(v)
  {
    match v
    case Dict(m) =>
      forall k | k in m ensures conv.fields[k] == SerializeConv(m[k]) {
        MarksDatesUnique(m[k], conv.fields[k]);
      }
      assert conv.fields == SerializeConv(v).fields;
    case List(s) =>
      forall i | 0 <= i < |s| ensures conv.items[i] == SerializeConv(s[i]) {
        MarksDatesUnique(s[i], conv.items[i]);
      }
      assert conv.items == SerializeConv(v).items;
    case Tuple(s) =>
      forall i | 0 <= i < |s| ensures conv.items[i] == SerializeConv(s[i]) {
        MarksDatesUnique(s[i], conv.items[i]);
      }
      assert conv.items == SerializeConv(v).items;
    case _ =>
  }

  /** The markers deserialisation meets at the scalars of data are all None or 'date'. */
  ghost predicate KnownMarkers(data: Value, conv: Value)
    decreases data, SequenceRank(data)
  {
    match data
    case Dict(m) => forall k :: k in m ==> conv.Dict? && k in conv.fields && KnownMarkers(m[k], conv.fields[k])
    case List(_) => KnownItemMarkers(data, conv)
    case Tuple(_) => KnownItemMarkers(data, conv)
    case _ => conv == Null || conv == Str(DATE_MARKER)
  }

  ghost predicate KnownItemMarkers(data: Value, conv: Value)
    requires data.IsSequence()
    decreases data, SequenceRank(data) - 1
  {
    ZipPartner(conv).Some? ==>
      forall i :: 0 <= i < |data.items| && i < |ZipPartner(conv).value| ==> KnownMarkers(data.items[i], ZipPartner(conv).value[i])
  }

  /** Any marker other than None and 'date' met on the way makes deserialisation raise. */
  lemma {:induction false} DeserializedMarkersKnown(data: Value, conv: Value)
    requires DeserializeAttributes(data, conv).Ok?
    ensures KnownMarkers(data, conv)
    decreases data, 1
  {
    match data
    case Dict(m) =>
      forall k | k in m ensures conv.Dict? && k in conv.fields && KnownMarkers(m[k], conv.fields[k]) {
        DeserializedMarkersKnown(m[k], conv.fields[k]);
      }
    case List(_) => DeserializedItemMarkersKnown(data, conv);
    case Tuple(_) => DeserializedItemMarkersKnown(data, conv);
    case _ =>
  }

  lemma {:induction false} DeserializedItemMarkersKnown(data: Value, conv: Value)
    requires data.IsSequence() && DeserializeAttributes(data, conv).Ok?
    ensures KnownItemMarkers(data, conv)
    decreases data, 0
  {
    if ZipPartner(conv).Some? && data.items != [] {
      var cs := ZipPartner(conv).value;
      forall i | 0 <= i < |data.items| && i < |cs| ensures KnownMarkers(data.items[i], cs[i]) {
        ItemsOk(data, cs, 0, i);
        DeserializedMarkersKnown(data.items[i], cs[i]);
      }
    }
  }

  lemma {:induction false} ItemsOk(data: Value, cs: seq<Value>, from: nat, i: nat)
    requires data.IsSequence() && from <= i < |data.items| && i < |cs|
    requires DeserializeItems(data, cs, from).Ok?
    ensures DeserializeAttributes(data.items[i], cs[i]).Ok?
    decreases i - from
  {
    if from < i {
      ItemsOk(data, cs, from + 1, i);
    }
  }

  /** At a scalar, a marker other than None and 'date' raises ValueError naming it. */
  lemma UnknownMarkerRaises(data: Value, conv: Value)
    requires !data.Dict? && !data.IsSequence()
    requires conv != Null && conv != Str(DATE_MARKER)
    ensures DeserializeAttributes(data, conv) == Err(UnknownConvertType(conv))
  {
  }

  /** zip(data, {}) is empty, so a list read with an empty dict comes back empty. */
  lemma EmptyDictConversion(data: Value)
    requires data.IsSequence()
    ensures DeserializeAttributes(data, Dict(map[])) == Ok(List([]))
  {
    assert ZipPartner(Dict(map[])) == Some([]);
    assert DeserializeItems(data, [], 0) == Ok([]);
    assert DeserializeSequence(data, Dict(map[])) == Ok(List([]));
  }

  /** zip(data, {k: v}) pairs the first item with the key k and stops. */
  lemma SingleKeyConversion(x: Value, rest: seq<Value>, k: string, v: Value)
    ensures DeserializeAttributes(List([x] + rest), Dict(map[k := v])) ==
      match DeserializeAttributes(x, Str(k))
      case Ok(y) => Ok(List([y]))
      case Err(e) => Err(e)
  {
    var data := List([x] + rest);
    var conv := Dict(map[k := v]);
    assert conv.fields.Keys == {k};
    assert ZipPartner(conv) == Some([Str(k)]);
    assert data.items[0] == x;
    assert DeserializeItems(data, [Str(k)], 1) == Ok([]);
    assert DeserializeAttributes(data, conv) == DeserializeSequence(data, conv);
    match DeserializeAttributes(x, Str(k))
    case Ok(y) =>
      assert DeserializeItems(data, [Str(k)], 0) == Ok([y] + []);
      assert [y] + [] == [y];
    case Err(e) =>
      assert DeserializeItems(data, [Str(k)], 0) == Err(e);
  }

  /** With the key 'date', the first item is read as a datetime. */
  lemma DateKeyConversion(d: Instant, rest: seq<Value>, v: Value)
    ensures DeserializeAttributes(List([Str(FormatDate(d))] + rest), Dict(map[DATE_MARKER := v])) == Ok(List([Date(d)]))
  {
    ParseFormatDate(d);
    SingleKeyConversion(Str(FormatDate(d)), rest, DATE_MARKER, v);
  }

  /** The kept entries of d under their new names, tuples read as lists. */
  function RenamedNormal(d: map<string, Value>, remove: set<string>, rename: map<string, string>): map<string, Value>
    requires RenamesDistinct(d, remove, rename)
  {
    map k | k in d && k !in remove :: Renamed(rename, k) := Normalize(d[k])
  }

  /** With nothing removed or renamed, the kept entries are the normalised dict. */
  lemma PlainRenamedNormal(d: map<string, Value>)
    ensures RenamesDistinct(d, {}, map[])
    ensures Dict(RenamedNormal(d, {}, map[])) == Normalize(Dict(d))
  {
    assert RenamedNormal(d, {}, map[]) == Normalize(Dict(d)).fields;
  }

  /** deserialize_attributes(*serialize_dict(d, ..., track_conversion=True)) gives back d, with its renamed keys and minus the removed ones. */
  lemma SerializeDictRoundTrip(d: map<string, Value>, remove: set<string>, rename: map<string, string>)
    requires RenamesDistinct(d, remove, rename)
    requires SerializeDict(d, remove, rename).Ok?
    ensures var sd := SerializeDict(d, remove, rename).value;
      DeserializeAttributes(Dict(sd.data), Dict(sd.conversion))
        == Ok(Dict(RenamedNormal(d, remove, rename)))
  {
    var sd := SerializeDict(d, remove, rename).value;
    var expected := RenamedNormal(d, remove, rename);
    SerializeDictEntries(d, remove, rename);
    forall t | t in sd.data
      ensures t in sd.conversion && DeserializeAttributes(sd.data[t], sd.conversion[t]) == Ok(expected[t])
    {
      var k :| Kept(d, remove, k) && Renamed(rename, k) == t;
      var k' :| k' in d && k' !in remove && Renamed(rename, k') == t && expected[t] == Normalize(d[k']);
      assert k' == k;
      assert Formattable(d[k]);
      RoundTrip(d[k]);
    }
    assert sd.data.Keys == expected.Keys;
    DeserializeDict(sd.data, sd.conversion, expected);
  }
}
