/** The format string of `println!`: the checker's scanner, the code generator's scanner, and the
    text they stand for. */
module FormatStrings {
  import opened Wrappers

  /** A hole and the literal text after it. */
  datatype Segment = Segment(isDebug: bool, text: string)

  /** Literal text, then holes each followed by literal text. */
  datatype Format = Format(first: string, rest: seq<Segment>)

  /** Literal text with its braces doubled. */
  function EscapeChar(c: char): string { if c == '{' || c == '}' then [c, c] else [c] }

  function Escape(text: string): string {
    if text == "" then "" else EscapeChar(text[0]) + Escape(text[1..])
  }

  function HoleText(isDebug: bool): string { if isDebug then "{:?}" else "{}" }

  function RenderRest(rest: seq<Segment>): string {
    if rest == [] then ""
    else HoleText(rest[0].isDebug) + Escape(rest[0].text) + RenderRest(rest[1..])
  }

  function Render(f: Format): string { Escape(f.first) + RenderRest(f.rest) }

  /** The first position of c in s from i on. */
  function Find(s: string, c: char, i: nat): (r: Option<nat>)
    requires i <= |s|
    ensures r.Some? ==> i <= r.value < |s| && s[r.value] == c && forall j :: i <= j < r.value ==> s[j] != c
    ensures r.None? ==> forall j :: i <= j < |s| ==> s[j] != c
    decreases |s| - i
  {
    if i == |s| then None else if s[i] == c then Some(i) else Find(s, c, i + 1)
  }

  predicate Doubled(s: string) { |s| >= 2 && s[0] == s[1] && (s[0] == '{' || s[0] == '}') }

  predicate AtHole(s: string) { s != "" && s[0] == '{' && !Doubled(s) }

  /** How much of s its first character takes. */
  function Width(s: string): (w: nat)
    requires s != ""
    ensures 1 <= w <= |s|
  {
    if Doubled(s) then 2 else 1
  }

  function Prepend(c: char, f: Option<Format>): Option<Format> {
    if f.None? then None else Some(Format([c] + f.value.first, f.value.rest))
  }

  predicate IsSpec(spec: string) { spec == "" || spec == ":?" }

  /** The meaning of a format string, if it has one. */
  function Scan(s: string): Option<Format>
    decreases |s|, 1
  {
    if s == "" then Some(Format("", []))
    else if AtHole(s) then ScanHole(s)
    else if s[0] == '}' && !Doubled(s) then None
    else Prepend(s[0], Scan(s[Width(s)..]))
  }

  function ScanHole(s: string): Option<Format>
    requires s != ""
    decreases |s|, 0
  {
    var close := Find(s, '}', 1);
    if close.None? || !IsSpec(s[1..close.value]) then None
    else Before(s[1..close.value] != "", Scan(s[close.value + 1..]))
  }

  /** A hole in front of a format. */
  function Before(isDebug: bool, f: Option<Format>): Option<Format> {
    if f.None? then None else Some(Format("", [Segment(isDebug, f.value.first)] + f.value.rest))
  }

  // ----- scanning inverts rendering

  /** Literal text in front of a format. */
  function PrependAll(text: string, f: Option<Format>): Option<Format> {
    if f.None? then None else Some(Format(text + f.value.first, f.value.rest))
  }

  lemma {:induction false} ScanEscape(text: string, s: string)
    ensures Scan(Escape(text) + s) == PrependAll(text, Scan(s))
    decreases |text|
  {
    if text == "" {
      NothingEscaped(s);
    } else {
      var tail := Escape(text[1..]) + s;
      ScanEscape(text[1..], s);
      ScanEscaped(text[0], tail);
      EscapeFirst(text, s);
      PrependFirst(text, Scan(s));
      hide *;
    }
  }

  lemma NothingEscaped(s: string)
    ensures Scan(Escape("") + s) == PrependAll("", Scan(s))
  {
    assert Escape("") + s == s;
    assert Scan(s).Some? ==> "" + Scan(s).value.first == Scan(s).value.first;
  }

  lemma EscapeFirst(text: string, s: string)
    requires text != ""
    ensures Escape(text) + s == EscapeChar(text[0]) + (Escape(text[1..]) + s)
  {
    hide EscapeChar;
  }

  lemma PrependFirst(text: string, f: Option<Format>)
    requires text != ""
    ensures PrependAll(text, f) == Prepend(text[0], PrependAll(text[1..], f))
  {
    assert f.Some? ==> text + f.value.first == [text[0]] + (text[1..] + f.value.first);
  }

  lemma ScanEscaped(c: char, s: string)
    ensures Scan(EscapeChar(c) + s) == Prepend(c, Scan(s))
  {
    var all := EscapeChar(c) + s;
    assert all[Width(all)..] == s;
  }

  lemma ScanHoleText(isDebug: bool, s: string)
    ensures Scan(HoleText(isDebug) + s) == Before(isDebug, Scan(s))
  {
    var all, n := HoleText(isDebug) + s, |HoleText(isDebug)| - 1;
    assert all[n] == '}' && (forall i :: 1 <= i < n ==> all[i] != '}');
    assert Find(all, '}', 1) == Some(n);
    assert all[1..n] == if isDebug then ":?" else "";
    assert all[n + 1..] == s;
  }

  lemma {:induction false} ScanRest(rest: seq<Segment>)
    ensures Scan(RenderRest(rest)) == Some(Format("", rest))
    decreases |rest|
  {
    if rest != [] {
      var segment, more := rest[0], RenderRest(rest[1..]);
      ScanRest(rest[1..]);
      ScanEscape(segment.text, more);
      ScanHoleText(segment.isDebug, Escape(segment.text) + more);
      RenderSegment(rest);
      hide *;
      assert PrependAll(segment.text, Some(Format("", rest[1..]))) ==
        Some(Format(segment.text, rest[1..])) by { NothingAfter(segment.text, rest[1..]); }
      assert Before(segment.isDebug, Some(Format(segment.text, rest[1..]))) ==
        Some(Format("", rest)) by { Attached(rest); }
    }
  }

  lemma RenderSegment(rest: seq<Segment>)
    requires rest != []
    ensures RenderRest(rest) == HoleText(rest[0].isDebug) + (Escape(rest[0].text) + RenderRest(rest[1..]))
  {
    hide HoleText, Escape;
  }

  lemma NothingAfter(text: string, rest: seq<Segment>)
    ensures PrependAll(text, Some(Format("", rest))) == Some(Format(text, rest))
  {
    assert text + "" == text;
  }

  lemma Attached(rest: seq<Segment>)
    requires rest != []
    ensures Before(rest[0].isDebug, Some(Format(rest[0].text, rest[1..]))) == Some(Format("", rest))
  {
    assert [rest[0]] + rest[1..] == rest;
  }

  /** Brace-doubling followed by scanning gives the same text and holes back. */
  lemma ScanRender(f: Format)
    ensures Scan(Render(f)) == Some(f)
  {
    ScanRest(f.rest);
    ScanEscape(f.first, RenderRest(f.rest));
    assert f.first + "" == f.first;
  }

  lemma RenderPrepend(c: char, f: Format)
    ensures Render(Format([c] + f.first, f.rest)) == EscapeChar(c) + Render(f)
  {
    assert ([c] + f.first)[1..] == f.first;
  }

  lemma RenderBefore(isDebug: bool, f: Format)
    ensures Render(Format("", [Segment(isDebug, f.first)] + f.rest)) == HoleText(isDebug) + Render(f)
  {
    assert ([Segment(isDebug, f.first)] + f.rest)[1..] == f.rest;
  }

  /** And a string that scans is the rendering of what it scans to. */
  lemma {:induction false} RenderScan(s: string)
    ensures Scan(s).Some? ==> Render(Scan(s).value) == s
    decreases |s|
  {
    if s != "" && Scan(s).Some? {
      if AtHole(s) {
        var close := Find(s, '}', 1);
        HoleScans(s);
        RenderScan(s[close.value + 1..]);
        RenderBefore(s[1..close.value] != "", Scan(s[close.value + 1..]).value);
        HoleSplit(s, close.value);
      } else {
        RenderScan(s[Width(s)..]);
        RenderPrepend(s[0], Scan(s[Width(s)..]).value);
        EscapeSplit(s);
      }
    }
  }

  lemma HoleScans(s: string)
    requires AtHole(s) && Scan(s).Some?
    ensures var close := Find(s, '}', 1);
      && close.Some? && IsSpec(s[1..close.value]) && Scan(s[close.value + 1..]).Some?
      && Scan(s) == Before(s[1..close.value] != "", Scan(s[close.value + 1..]))
  {
    assert Scan(s) == ScanHole(s);
  }

  lemma HoleSplit(s: string, n: nat)
    requires 1 <= n < |s| && s[0] == '{' && s[n] == '}' && IsSpec(s[1..n])
    ensures s == HoleText(s[1..n] != "") + s[n + 1..]
  {
    assert s[..n + 1] == [s[0]] + s[1..n] + [s[n]];
    assert s == s[..n + 1] + s[n + 1..];
  }

  lemma EscapeSplit(s: string)
    requires s != "" && !AtHole(s) && (s[0] == '}' ==> Doubled(s))
    ensures s == EscapeChar(s[0]) + s[Width(s)..]
  {
    assert s == s[..Width(s)] + s[Width(s)..];
    assert s[..Width(s)] == EscapeChar(s[0]);
  }

  // ----- the checker's scanner

  /** The suffix at i, seen from the whole string. */
  lemma Suffix(s: string, i: nat, close: Option<nat>)
    requires i < |s| && close == Find(s, '}', i + 1)
    ensures s[i..][0] == s[i] && s[i..][Width(s[i..])..] == s[i + Width(s[i..])..]
    ensures Doubled(s[i..]) <==> i + 1 < |s| && s[i] == s[i + 1] && (s[i] == '{' || s[i] == '}')
    ensures Find(s[i..], '}', 1) == if close.None? then None else Some(close.value - i)
    ensures close.Some? ==>
      s[i..][1..close.value - i] == s[i + 1..close.value] && s[i..][close.value - i + 1..] == s[close.value + 1..]
  {
    FindShifted(s, '}', i, 1);
  }

  /** Finding in a suffix. */
  lemma {:induction false} FindShifted(s: string, c: char, i: nat, j: nat)
    requires i + j <= |s|
    ensures var r := Find(s[i..], c, j); Find(s, c, i + j) == if r.None? then None else Some(i + r.value)
    decreases |s| - i - j
  {
    if i + j < |s| && s[i + j] != c { FindShifted(s, c, i, j + 1); }
  }

  /** How the number of holes grows, by what stands first. */
  lemma HolesFrom(s: string)
    requires s != ""
    ensures AtHole(s) ==>
      var close := Find(s, '}', 1);
      if close.None? || !IsSpec(s[1..close.value]) then Scan(s).None?
      else
        var f := Scan(s[close.value + 1..]);
        (Scan(s).Some? <==> f.Some?) && (f.Some? ==> |Scan(s).value.rest| == 1 + |f.value.rest|)
    ensures s[0] == '}' && !Doubled(s) ==> Scan(s).None?
    ensures !AtHole(s) && (s[0] != '}' || Doubled(s)) ==>
      var f := Scan(s[Width(s)..]);
      (Scan(s).Some? <==> f.Some?) && (f.Some? ==> |Scan(s).value.rest| == |f.value.rest|)
  {
    hide Find;
    if AtHole(s) { assert Scan(s) == ScanHole(s); }
  }

  method CountFormatArguments(format: string) returns (ok: bool, count: nat)
    ensures ok <==> Scan(format).Some?
    ensures ok ==> count == |Scan(format).value.rest|
  {
    hide Find, Scan;
    count := 0;
    var i := 0;
    ScanNothing();
    assert format[0..] == format;
    while i < |format|
      invariant i <= |format|
      invariant Scan(format).Some? <==> Scan(format[i..]).Some?
      invariant Scan(format).Some? ==> count + |Scan(format[i..]).value.rest| == |Scan(format).value.rest|
    {
      Suffix(format, i, Find(format, '}', i + 1));
      HolesFrom(format[i..]);
      if format[i] == '{' {
        if i + 1 < |format| && format[i + 1] == '{' {
          i := i + 2;
          continue;
        }
        var close := Find(format, '}', i + 1);
        if close.None? { return false, count; }
        var spec := format[i + 1..close.value];
        if spec != "" && spec != ":?" { return false, count; }
        count := count + 1;
        i := close.value;
      } else if format[i] == '}' {
        if i + 1 >= |format| || format[i + 1] != '}' { return false, count; }
        i := i + 1;
      }
      i := i + 1;
    }
    assert format[i..] == "";
    ok := true;
  }

  lemma ScanNothing()
    ensures Scan("") == Some(Format("", []))
  {}

  // ----- the code generator's scanner

  datatype Event = Print(text: string) | Value(index: nat) | Newline

  /** Literal text is printed when there is some. */
  function Flush(text: string): seq<Event> { if text == "" then [] else [Print(text)] }

  /** The events for a suffix of the format, with the literal text read so far and the next of n
      arguments.  A hole without a closing brace ends the scan. */
  function Emitted(s: string, literal: string, k: nat, n: nat): seq<Event>
    decreases |s|, 1
  {
    if s == "" then Flush(literal)
    else if AtHole(s) then Flush(literal) + EmittedHole(s, k, n)
    else Emitted(s[Width(s)..], literal + [s[0]], k, n)
  }

  function EmittedHole(s: string, k: nat, n: nat): seq<Event>
    requires s != ""
    decreases |s|, 0
  {
    var close := Find(s, '}', 1);
    if close.None? then []
    else if k < n then [Value(k)] + Emitted(s[close.value + 1..], "", k + 1, n)
    else Emitted(s[close.value + 1..], "", k, n)
  }

  /** The events from a suffix on, by what stands first. */
  lemma EventsFrom(s: string, literal: string, k: nat, n: nat)
    requires s != ""
    ensures !AtHole(s) ==> Emitted(s, literal, k, n) == Emitted(s[Width(s)..], literal + [s[0]], k, n)
    ensures AtHole(s) ==>
      var close := Find(s, '}', 1);
      Emitted(s, literal, k, n) ==
        if close.None? then Flush(literal)
        else if k < n then Flush(literal) + [Value(k)] + Emitted(s[close.value + 1..], "", k + 1, n)
        else Flush(literal) + Emitted(s[close.value + 1..], "", k, n)
  {
    hide Find, Flush;
    if AtHole(s) { assert Emitted(s, literal, k, n) == Flush(literal) + EmittedHole(s, k, n); }
  }

  method VisitMacroCall(format: string, params: nat) returns (events: seq<Event>)
    ensures events == Emitted(format, "", 0, params) + [Newline]
  {
    hide Find, Flush, Emitted;
    EventsAtEnd();
    assert format[0..] == format;
    events := [];
    var literal, paramIndex, i := "", 0, 0;
    while i < |format|
      invariant i <= |format|
      invariant events + Emitted(format[i..], literal, paramIndex, params) == Emitted(format, "", 0, params)
    {
      Suffix(format, i, Find(format, '}', i + 1));
      EventsFrom(format[i..], literal, paramIndex, params);
      if format[i] == '{' {
        if i + 1 < |format| && format[i + 1] == '{' {
          literal := literal + "{";
          i := i + 2;
          continue;
        }
        var close := Find(format, '}', i + 1);
        if close.None? {
          events := events + Flush(literal) + [Newline];
          return events;
        }
        events := events + Flush(literal);
        literal := "";
        if paramIndex < params {
          events := events + [Value(paramIndex)];
          paramIndex := paramIndex + 1;
        }
        i := close.value + 1;
        continue;
      }
      if format[i] == '}' && i + 1 < |format| && format[i + 1] == '}' {
        literal := literal + "}";
        i := i + 2;
        continue;
      }
      literal := literal + [format[i]];
      i := i + 1;
    }
    assert format[i..] == "";
    events := events + Flush(literal) + [Newline];
  }

  lemma EventsAtEnd()
    ensures forall literal, k, n :: Emitted("", literal, k, n) == Flush(literal)
  {}

  // ----- the two agree

  /** What a format with k arguments already printed should print. */
  function Printed(f: Format, k: nat): seq<Event>
    decreases |f.rest|
  {
    Flush(f.first) + if f.rest == [] then [] else [Value(k)] + Printed(Format(f.rest[0].text, f.rest[1..]), k + 1)
  }

  /** On every accepted string with as many arguments as holes left, the generator prints the
      literal text and each argument once, in order. */
  lemma {:induction false} EmittedIsPrinted(s: string, literal: string, k: nat, n: nat)
    requires Scan(s).Some? && n == k + |Scan(s).value.rest|
    ensures Emitted(s, literal, k, n) == Printed(Format(literal + Scan(s).value.first, Scan(s).value.rest), k)
    decreases |s|
  {
    if s == "" {
      assert literal + "" == literal;
    } else if AtHole(s) {
      var m := Find(s, '}', 1).value;
      var f := Scan(s[m + 1..]).value;
      EmittedIsPrinted(s[m + 1..], "", k + 1, n);
      assert "" + f.first == f.first && literal + "" == literal;
      assert ([Segment(s[1..m] != "", f.first)] + f.rest)[1..] == f.rest;
    } else {
      var f := Scan(s[Width(s)..]).value;
      EmittedIsPrinted(s[Width(s)..], literal + [s[0]], k, n);
      assert literal + ([s[0]] + f.first) == literal + [s[0]] + f.first;
    }
  }

  /** What some events write, where `show` gives the text of each argument. */
  function Shown(events: seq<Event>, show: nat -> string): string {
    if events == [] then ""
    else
      (match events[0]
       case Print(text) => text
       case Value(k) => show(k)
       case Newline => "\n") + Shown(events[1..], show)
  }

  /** The format with the holes filled by arguments k, k + 1 and so on. */
  function Filled(f: Format, k: nat, show: nat -> string): string
    decreases |f.rest|
  {
    f.first + if f.rest == [] then "" else show(k) + Filled(Format(f.rest[0].text, f.rest[1..]), k + 1, show)
  }

  predicate NoEmptyText(events: seq<Event>) { Print("") !in events }

  lemma {:induction false} ShownConcat(p: seq<Event>, q: seq<Event>, show: nat -> string)
    ensures Shown(p + q, show) == Shown(p, show) + Shown(q, show)
    decreases |p|
  {
    if p == [] {
      assert p + q == q;
    } else {
      assert (p + q)[1..] == p[1..] + q;
      ShownConcat(p[1..], q, show);
    }
  }

  lemma ShownOne(e: Event, events: seq<Event>, show: nat -> string)
    ensures Shown([e] + events, show) == Shown([e], show) + Shown(events, show)
    ensures e.Print? ==> Shown([e], show) == e.text
    ensures e.Value? ==> Shown([e], show) == show(e.index)
    ensures e.Newline? ==> Shown([e], show) == "\n"
  {
    assert ([e] + events)[1..] == events;
    assert [e][1..] == [];
    assert Shown([], show) == "";
  }

  lemma FlushShown(text: string, show: nat -> string)
    ensures Shown(Flush(text), show) == text && NoEmptyText(Flush(text))
  {
    if text != "" { ShownOne(Print(text), [], show); }
  }

  /** The printed events write the format with its holes filled, and print no empty text. */
  lemma {:induction false} PrintedShows(f: Format, k: nat, show: nat -> string)
    ensures Shown(Printed(f, k), show) == Filled(f, k, show) && NoEmptyText(Printed(f, k))
    decreases |f.rest|
  {
    var head := Flush(f.first);
    FlushShown(f.first, show);
    if f.rest == [] {
      assert head + [] == head && f.first + "" == f.first;
    } else {
      var rest := Format(f.rest[0].text, f.rest[1..]);
      var tail := Printed(rest, k + 1);
      PrintedShows(rest, k + 1, show);
      assert Printed(f, k) == head + ([Value(k)] + tail);
      assert Filled(f, k, show) == f.first + (show(k) + Filled(rest, k + 1, show));
      hide Printed, Flush, Shown, Filled;
      ShownConcat(head, [Value(k)] + tail, show);
      ShownOne(Value(k), tail, show);
    }
  }

  /** The arguments among some events, in order. */
  function Arguments(events: seq<Event>): seq<nat> {
    if events == [] then []
    else (if events[0].Value? then [events[0].index] else []) + Arguments(events[1..])
  }

  lemma {:induction false} ArgumentsConcat(p: seq<Event>, q: seq<Event>)
    ensures Arguments(p + q) == Arguments(p) + Arguments(q)
    decreases |p|
  {
    if p == [] {
      assert p + q == q;
    } else {
      ArgumentsConcat(p[1..], q);
      ArgumentsFirst(p, q);
    }
  }

  lemma ArgumentsFirst(p: seq<Event>, q: seq<Event>)
    requires p != []
    ensures var first: seq<nat> := if p[0].Value? then [p[0].index] else [];
      Arguments(p) == first + Arguments(p[1..]) && Arguments(p + q) == first + Arguments(p[1..] + q)
  {
    assert (p + q)[1..] == p[1..] + q;
  }

  lemma {:induction false} PrintedArguments(f: Format, k: nat)
    ensures Arguments(Printed(f, k)) == seq(|f.rest|, i => k + i)
    decreases |f.rest|
  {
    var head := Flush(f.first);
    NoArguments(f.first);
    if f.rest == [] {
      assert head + [] == head;
    } else {
      var rest := Format(f.rest[0].text, f.rest[1..]);
      var tail := Printed(rest, k + 1);
      PrintedArguments(rest, k + 1);
      assert Printed(f, k) == head + ([Value(k)] + tail);
      hide Printed, Flush, Arguments;
      ArgumentsConcat(head, [Value(k)] + tail);
      ArgumentsConcat([Value(k)], tail);
      OneArgument(k);
      CountUp(k, |f.rest|);
    }
  }

  lemma NoArguments(text: string)
    ensures Arguments(Flush(text)) == []
  {}

  lemma OneArgument(k: nat)
    ensures Arguments([Value(k)]) == [k]
  {}

  lemma CountUp(k: nat, n: nat)
    requires n > 0
    ensures [k] + seq(n - 1, i => k + 1 + i) == seq(n, i => k + i)
  {}

  /** A call that passes the check prints its literal text and every argument exactly once, in
      order: the code generator never leaves the scan early or runs out of arguments. */
  lemma CheckedCallPrints(format: string, params: nat)
    requires Scan(format).Some? && |Scan(format).value.rest| == params
    ensures Emitted(format, "", 0, params) == Printed(Scan(format).value, 0)
    ensures Arguments(Emitted(format, "", 0, params)) == seq(params, i => 0 + i)
    ensures NoEmptyText(Emitted(format, "", 0, params))
    ensures forall show: nat -> string ::
      Shown(Emitted(format, "", 0, params), show) == Filled(Scan(format).value, 0, show)
  {
    EmittedIsPrinted(format, "", 0, params);
    forall show: nat -> string { PrintedShows(Scan(format).value, 0, show); }
    PrintedShows(Scan(format).value, 0, k => "");
    assert "" + Scan(format).value.first == Scan(format).value.first;
    PrintedArguments(Scan(format).value, 0);
  }

  /** Every list of text and holes can be written so that it passes the check and prints itself. */
  lemma WrittenPrints(f: Format)
    ensures Scan(Render(f)) == Some(f) && Emitted(Render(f), "", 0, |f.rest|) == Printed(f, 0)
  {
    ScanRender(f);
    CheckedCallPrints(Render(f), |f.rest|);
  }
}
