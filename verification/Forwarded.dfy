/**
  The walk along the forwarded chain: an in-place scanner that takes the last comma-separated entry
  off the last header, again and again, and must visit what splitting everything first would give.
*/
module Forwarded {
  import opened Wrappers

  // ---------- The plain form: split, trim, drop empties ----------

  /** The comma-separated parts of `h`, left to right. */
  function Split(h: string): (parts: seq<string>)
    ensures |parts| >= 1
  {
    if h == "" then [""] else Extended(Split(h[..|h| - 1]), h[|h| - 1])
  }

  function Extended(parts: seq<string>, c: char): (r: seq<string>)
    requires |parts| >= 1
    ensures |r| >= 1
  {
    if c == ',' then parts + [""] else parts[..|parts| - 1] + [parts[|parts| - 1] + [c]]
  }

  /** Unicode white space, as `strings.TrimSpace` removes it. */
  predicate IsSpace(c: char) {
    var n := c as int;
    || 9 <= n <= 13 || n == 0x20 || n == 0x85 || n == 0xA0 || n == 0x1680 || 0x2000 <= n <= 0x200A
    || n == 0x2028 || n == 0x2029 || n == 0x202F || n == 0x205F || n == 0x3000
  }

  function TrimSpace(s: string): string {
    if s == "" then ""
    else if IsSpace(s[0]) then TrimSpace(s[1..])
    else if IsSpace(s[|s| - 1]) then TrimSpace(s[..|s| - 1])
    else s
  }

  function Optional(v: string): seq<string> {
    if v == "" then [] else [v]
  }

  function NonEmptyTrimmed(parts: seq<string>): seq<string> {
    if parts == [] then []
    else
      var v := TrimSpace(parts[|parts| - 1]);
      NonEmptyTrimmed(parts[..|parts| - 1]) + Optional(v)
  }

  /** The entries of the merged chain, left to right. */
  function Entries(headers: seq<string>): seq<string> {
    if headers == [] then []
    else Entries(headers[..|headers| - 1]) + EntriesOf(headers[|headers| - 1])
  }

  function EntriesOf(h: string): seq<string> {
    NonEmptyTrimmed(Split(h))
  }

  function Reversed<T>(s: seq<T>): seq<T> {
    if s == [] then [] else [s[|s| - 1]] + Reversed(s[..|s| - 1])
  }

  function Join(headers: seq<string>): string {
    if headers == [] then ""
    else if |headers| == 1 then headers[0]
    else Join(headers[..|headers| - 1]) + "," + headers[|headers| - 1]
  }

  // ---------- The visitor: who the client is ----------

  /** Address parsing (with unmapping and zone stripping) and prefix membership are parameters. */
  datatype Trust<!Addr> = Trust(parse: string -> Option<Addr>, prefixes: seq<Addr -> bool>) {
    predicate InAnyPrefix(ip: Addr) {
      exists k | 0 <= k < |prefixes| :: prefixes[k](ip)
    }

    /** Garbage or an untrusted address ends the walk. */
    predicate Stops(entry: string) {
      parse(entry).None? || !InAnyPrefix(parse(entry).value)
    }
  }

  /** The visited entries: up to and including the first at which the walk stops. */
  function UpToStop<Addr>(trust: Trust<Addr>, entries: seq<string>): seq<string> {
    if entries == [] then []
    else if trust.Stops(entries[0]) then [entries[0]]
    else [entries[0]] + UpToStop(trust, entries[1..])
  }

  predicate Stopped<Addr>(trust: Trust<Addr>, visited: seq<string>) {
    visited != [] && trust.Stops(visited[|visited| - 1])
  }

  /** The closure over `found`, with the entries it was shown. */
  class Visitor<Addr> {
    const trust: Trust<Addr>
    var found: Option<Addr>
    ghost var seen: seq<string>

    constructor (trust: Trust<Addr>)
      ensures this.trust == trust && found == None && seen == []
    {
      this.trust, found, seen := trust, None, [];
    }

    method Visit(entry: string) returns (stop: bool)
      modifies this
      ensures seen == old(seen) + [entry] && stop == trust.Stops(entry)
      ensures found == if stop && trust.parse(entry).Some? then trust.parse(entry) else old(found)
    {
      seen := seen + [entry];
      var ip := trust.parse(entry);
      if ip.None? { return true; }
      var trusted := InAnyPrefix(ip.value, trust.prefixes);
      if trusted { return false; }
      found := ip;
      stop := true;
    }
  }

  method InAnyPrefix<Addr>(ip: Addr, prefixes: seq<Addr -> bool>) returns (r: bool)
    ensures r <==> exists k | 0 <= k < |prefixes| :: prefixes[k](ip)
  {
    for k := 0 to |prefixes|
      invariant forall j | 0 <= j < k :: !prefixes[j](ip)
    {
      if prefixes[k](ip) { return true; }
    }
    r := false;
  }

  predicate IsLastComma(h: string, i: int) {
    -1 <= i < |h| && (i >= 0 ==> h[i] == ',') && forall k | i < k < |h| :: h[k] != ','
  }

  /** Go's `strings.LastIndexByte(h, ',')`. */
  method LastIndexComma(h: string) returns (i: int)
    ensures IsLastComma(h, i)
  {
    i := |h| - 1;
    while i >= 0 && h[i] != ','
      invariant -1 <= i < |h| && forall k | i < k < |h| :: h[k] != ','
    {
      i := i - 1;
    }
  }

  /** Cut the last entry off `h`, where the last comma is. */
  method CutLast(h: string) returns (v: string, rest: string)
    requires h != ""
    ensures |rest| < |h| && ',' !in v && h == if |rest| + |v| == |h| then v else rest + "," + v
    ensures |rest| + |v| == |h| ==> rest == ""
  {
    var i := LastIndexComma(h);
    if i >= 0 {
      v, rest := h[i + 1..], h[..i];
    } else {
      v, rest := h, "";
    }
  }

  /** One turn of the scanner: cut the last entry off `h` and trim it. */
  method TakeLast(h: string) returns (v: string, rest: string)
    requires h != ""
    ensures |rest| < |h|
    ensures Reversed(EntriesOf(h)) == Optional(v) + Reversed(EntriesOf(rest))
  {
    var raw;
    raw, rest := CutLast(h);
    v := TrimSpace(raw);
    LastEntryFirst(h, raw, rest);
  }

  /** The inner loop: one header, taken apart in place from its right end. */
  method WalkHeader<Addr>(header: string, visitor: Visitor<Addr>) returns (stop: bool)
    requires visitor.found == None && !Stopped(visitor.trust, visitor.seen)
    modifies visitor
    ensures visitor.seen == old(visitor.seen) + UpToStop(visitor.trust, Reversed(EntriesOf(header)))
    ensures stop == Stopped(visitor.trust, visitor.seen)
    ensures visitor.found == if stop then visitor.trust.parse(visitor.seen[|visitor.seen| - 1]) else None
  {
    var h := header;
    ghost var all := UpToStop(visitor.trust, Reversed(EntriesOf(header)));
    while h != ""
      invariant visitor.found == None && !Stopped(visitor.trust, visitor.seen)
      invariant old(visitor.seen) + all == visitor.seen + UpToStop(visitor.trust, Reversed(EntriesOf(h)))
      decreases |h|
    {
      var v;
      v, h := TakeLast(h);
      ghost var rest := Reversed(EntriesOf(h));
      if v == "" {
        assert [] + rest == rest;
        continue;
      }
      VisitedNext(visitor.trust, v, rest);
      Associate(visitor.seen, [v], UpToStop(visitor.trust, rest));
      stop := visitor.Visit(v);
      assert visitor.seen[|visitor.seen| - 1] == v;
      if stop { return; }
    }
    stop := false;
    assert EntriesOf("") == [];
  }

  /** The scanner visits exactly the reversed entries up to the first stop. */
  method WalkXff<Addr>(headers: seq<string>, visitor: Visitor<Addr>)
    requires visitor.seen == [] && visitor.found == None
    modifies visitor
    ensures visitor.seen == UpToStop(visitor.trust, Reversed(Entries(headers)))
    ensures visitor.found == if Stopped(visitor.trust, visitor.seen)
                             then visitor.trust.parse(visitor.seen[|visitor.seen| - 1]) else None
  {
    ghost var all := UpToStop(visitor.trust, Reversed(Entries(headers)));
    var hi := |headers|;
    assert headers[..hi] == headers;
    while hi > 0
      invariant 0 <= hi <= |headers|
      invariant visitor.found == None && !Stopped(visitor.trust, visitor.seen)
      invariant all == visitor.seen + UpToStop(visitor.trust, Reversed(Entries(headers[..hi])))
    {
      hi := hi - 1;
      HeaderByHeader(visitor.trust, headers, hi, visitor.seen);
      var stop := WalkHeader(headers[hi], visitor);
      if stop { return; }
    }
    assert Reversed(Entries(headers[..0])) == [];
  }

  /** Visiting the first `hi + 1` headers from the right is visiting the last of them, then the rest. */
  lemma HeaderByHeader<Addr>(trust: Trust<Addr>, headers: seq<string>, hi: nat, seen: seq<string>)
    requires hi < |headers| && !Stopped(trust, seen)
    ensures var first := seen + UpToStop(trust, Reversed(EntriesOf(headers[hi])));
            seen + UpToStop(trust, Reversed(Entries(headers[..hi + 1]))) ==
            first + if Stopped(trust, first) then [] else UpToStop(trust, Reversed(Entries(headers[..hi])))
  {
    var last, rest := Reversed(EntriesOf(headers[hi])), Reversed(Entries(headers[..hi]));
    assert headers[..hi + 1][..hi] == headers[..hi];
    LastHeaderFirst(headers[..hi + 1]);
    VisitedInTwo(trust, last, rest);
    StoppedInSecond(trust, seen, UpToStop(trust, last));
    Associate(seen, UpToStop(trust, last), if Stopped(trust, UpToStop(trust, last)) then [] else UpToStop(trust, rest));
  }

  lemma StoppedInSecond<Addr>(trust: Trust<Addr>, a: seq<string>, b: seq<string>)
    requires !Stopped(trust, a)
    ensures Stopped(trust, a + b) == Stopped(trust, b)
  {
    if b == [] {
      assert a + b == a;
    }
  }

  /** Visiting a concatenation: the second part is reached unless the first part stops the walk. */
  lemma {:induction false} VisitedInTwo<Addr>(trust: Trust<Addr>, a: seq<string>, b: seq<string>)
    ensures UpToStop(trust, a + b) ==
            UpToStop(trust, a) + if Stopped(trust, UpToStop(trust, a)) then [] else UpToStop(trust, b)
  {
    if a == [] {
      assert a + b == b;
    } else {
      assert (a + b)[1..] == a[1..] + b;
      if !trust.Stops(a[0]) {
        VisitedInTwo(trust, a[1..], b);
      }
    }
  }

  lemma VisitedNext<Addr>(trust: Trust<Addr>, v: string, rest: seq<string>)
    ensures UpToStop(trust, [v] + rest) == [v] + if trust.Stops(v) then [] else UpToStop(trust, rest)
  {
    assert ([v] + rest)[1..] == rest;
  }

  lemma {:induction false} ReversedOfConcat<T>(a: seq<T>, b: seq<T>)
    ensures Reversed(a + b) == Reversed(b) + Reversed(a)
    decreases |b|
  {
    if b == [] {
      assert a + b == a;
    } else {
      assert (a + b)[..|a + b| - 1] == a + b[..|b| - 1];
      ReversedOfConcat(a, b[..|b| - 1]);
    }
  }

  lemma LastHeaderFirst(headers: seq<string>)
    requires headers != []
    ensures Reversed(Entries(headers)) ==
            Reversed(EntriesOf(headers[|headers| - 1])) + Reversed(Entries(headers[..|headers| - 1]))
  {
    ReversedOfConcat(Entries(headers[..|headers| - 1]), EntriesOf(headers[|headers| - 1]));
  }

  lemma {:induction false} SplitWithoutComma(h: string)
    requires forall k | 0 <= k < |h| :: h[k] != ','
    ensures Split(h) == [h]
  {
    if h != "" {
      SplitWithoutComma(h[..|h| - 1]);
      assert h == h[..|h| - 1] + [h[|h| - 1]];
    }
  }

  lemma ExtendedOfConcat(a: seq<string>, b: seq<string>, c: char)
    requires |b| >= 1
    ensures Extended(a + b, c) == a + Extended(b, c)
  {
    assert (a + b)[..|a + b| - 1] == a + b[..|b| - 1];
  }

  lemma {:induction false} SplitOfConcat(g: string, h: string)
    ensures Split(g + "," + h) == Split(g) + Split(h)
    decreases |h|
  {
    var s := g + "," + h;
    assert Split(s) == Extended(Split(s[..|s| - 1]), s[|s| - 1]);
    if h == "" {
      assert s[..|s| - 1] == g && s[|s| - 1] == ',';
    } else {
      var n := |h| - 1;
      assert s[..|s| - 1] == g + "," + h[..n] && s[|s| - 1] == h[n];
      SplitOfConcat(g, h[..n]);
      ExtendedOfConcat(Split(g), Split(h[..n]), h[n]);
    }
  }

  lemma LastEntryPeels(v: string, rest: string)
    requires ',' !in v
    ensures EntriesOf(rest + "," + v) == EntriesOf(rest) + Optional(TrimSpace(v))
    ensures EntriesOf(v) == EntriesOf("") + Optional(TrimSpace(v))
  {
    SplitWithoutComma(v);
    SplitOfConcat(rest, v);
    NonEmptyAppend(Split(rest), v);
    NonEmptyAppend([], v);
    assert [] + [v] == [v] && NonEmptyTrimmed([""]) == [];
  }

  lemma LastEntryFirst(h: string, v: string, rest: string)
    requires ',' !in v && h == if |rest| + |v| == |h| then v else rest + "," + v
    requires |rest| + |v| == |h| ==> rest == ""
    ensures Reversed(EntriesOf(h)) == Optional(TrimSpace(v)) + Reversed(EntriesOf(rest))
  {
    LastEntryPeels(v, rest);
    ReversedOfConcat(EntriesOf(rest), Optional(TrimSpace(v)));
    ReversedOfOptional(TrimSpace(v));
  }

  lemma ReversedOfOptional(v: string)
    ensures Reversed(Optional(v)) == Optional(v)
  {
    assert [v][..0] == [];
  }

  lemma NonEmptyAppend(parts: seq<string>, v: string)
    ensures NonEmptyTrimmed(parts + [v]) == NonEmptyTrimmed(parts) + Optional(TrimSpace(v))
  {
    assert (parts + [v])[..|parts|] == parts;
  }

  lemma Associate<T>(a: seq<T>, b: seq<T>, c: seq<T>)
    ensures (a + b) + c == a + (b + c)
  {
  }

  method ClientFromXff<Addr>(headers: seq<string>, trust: Trust<Addr>) returns (client: Option<Addr>)
    ensures client == ClientOf(trust, Reversed(Entries(headers)))
  {
    var visitor := new Visitor(trust);
    WalkXff(headers, visitor);
    ClientIsLastVisited(trust, Reversed(Entries(headers)));
    client := visitor.found;
  }

  function ClientOf<Addr>(trust: Trust<Addr>, entries: seq<string>): Option<Addr> {
    if entries == [] then None
    else if trust.Stops(entries[0]) then trust.parse(entries[0])
    else ClientOf(trust, entries[1..])
  }

  lemma {:induction false} ClientIsLastVisited<Addr>(trust: Trust<Addr>, entries: seq<string>)
    ensures var visited := UpToStop(trust, entries);
            ClientOf(trust, entries) ==
            if Stopped(trust, visited) then trust.parse(visited[|visited| - 1]) else None
  {
    if entries != [] && !trust.Stops(entries[0]) {
      ClientIsLastVisited(trust, entries[1..]);
    }
  }

  // ---------- Main results ----------

  lemma {:induction false} TrimmedOfConcat(a: seq<string>, b: seq<string>)
    ensures NonEmptyTrimmed(a + b) == NonEmptyTrimmed(a) + NonEmptyTrimmed(b)
    decreases |b|
  {
    if b == [] {
      assert a + b == a;
    } else {
      assert (a + b)[..|a + b| - 1] == a + b[..|b| - 1];
      TrimmedOfConcat(a, b[..|b| - 1]);
    }
  }

  lemma {:induction false} EntriesOfJoined(g: string, h: string)
    ensures EntriesOf(g + "," + h) == EntriesOf(g) + EntriesOf(h)
  {
    SplitOfConcat(g, h);
    TrimmedOfConcat(Split(g), Split(h));
  }

  /** How the chain is split across headers does not matter. */
  lemma {:induction false} SplittingIsIrrelevant(headers: seq<string>)
    ensures Entries([Join(headers)]) == Entries(headers)
    decreases |headers|
  {
    assert forall h: string :: [h][..0] == [];
    assert Entries([Join(headers)]) == EntriesOf(Join(headers));
    if headers == [] {
      assert EntriesOf("") == [];
    } else if |headers| == 1 {
      assert headers == [headers[0]];
    } else {
      var init := headers[..|headers| - 1];
      SplittingIsIrrelevant(init);
      assert Entries([Join(init)]) == EntriesOf(Join(init));
      EntriesOfJoined(Join(init), headers[|headers| - 1]);
    }
  }

  /**
    The resolved client is the one parseable untrusted entry with nothing but parseable trusted
    entries to its right (`entries` runs right to left); without such an entry there is no client.
  */
  lemma {:induction false} ClientIsFirstUntrusted<Addr>(trust: Trust<Addr>, entries: seq<string>, ip: Addr)
    ensures ClientOf(trust, entries) == Some(ip) <==>
              exists k | 0 <= k < |entries| ::
                && trust.parse(entries[k]) == Some(ip) && !trust.InAnyPrefix(ip)
                && forall j | 0 <= j < k :: !trust.Stops(entries[j])
  {
    if entries != [] {
      var rest := entries[1..];
      ClientIsFirstUntrusted(trust, rest, ip);
      if k :| 0 <= k < |entries| && trust.parse(entries[k]) == Some(ip) && !trust.InAnyPrefix(ip)
              && forall j | 0 <= j < k :: !trust.Stops(entries[j]) {
        if k > 0 {
          assert rest[k - 1] == entries[k] && forall j | 0 <= j < k - 1 :: rest[j] == entries[j + 1];
        }
      }
      if k :| 0 <= k < |rest| && trust.parse(rest[k]) == Some(ip) && !trust.InAnyPrefix(ip)
              && forall j | 0 <= j < k :: !trust.Stops(rest[j]) && !trust.Stops(entries[0]) {
        assert entries[k + 1] == rest[k] && forall j | 1 <= j <= k :: entries[j] == rest[j - 1];
      }
    }
  }

  /** The walk has ended by itself: it met the client, or garbage. */
  predicate Decided<Addr>(trust: Trust<Addr>, entries: seq<string>) {
    exists k | 0 <= k < |entries| :: trust.Stops(entries[k])
  }

  lemma {:induction false} FurtherEntriesAreIgnored<Addr>(trust: Trust<Addr>, entries: seq<string>, more: seq<string>)
    requires Decided(trust, entries)
    ensures UpToStop(trust, entries + more) == UpToStop(trust, entries)
    ensures ClientOf(trust, entries + more) == ClientOf(trust, entries)
  {
    assert (entries + more)[1..] == entries[1..] + more;
    if !trust.Stops(entries[0]) {
      var k :| 0 <= k < |entries| && trust.Stops(entries[k]);
      assert entries[1..][k - 1] == entries[k];
      FurtherEntriesAreIgnored(trust, entries[1..], more);
    }
  }

  lemma {:induction false} EntriesOfConcat(a: seq<string>, b: seq<string>)
    ensures Entries(a + b) == Entries(a) + Entries(b)
    decreases |b|
  {
    if b == [] {
      assert a + b == a;
    } else {
      var init, last := b[..|b| - 1], b[|b| - 1];
      assert (a + b)[..|a + b| - 1] == a + init && (a + b)[|a + b| - 1] == last;
      EntriesOfConcat(a, init);
      Associate(Entries(a), Entries(init), EntriesOf(last));
    }
  }

  /**
    Once the walk over `headers` has found the client or met garbage, nothing written further left
    can change the outcome: neither earlier headers nor text put in front of the first header.
  */
  lemma {:induction false} TextOnTheLeftIsIgnored<Addr>(
    trust: Trust<Addr>, earlier: seq<string>, text: string, headers: seq<string>)
    requires headers != [] && Decided(trust, Reversed(Entries(headers)))
    ensures ClientOf(trust, Reversed(Entries(earlier + headers))) == ClientOf(trust, Reversed(Entries(headers)))
    ensures ClientOf(trust, Reversed(Entries([text + "," + headers[0]] + headers[1..])))
         == ClientOf(trust, Reversed(Entries(headers)))
  {
    EntriesOfConcat(earlier, headers);
    ReversedOfConcat(Entries(earlier), Entries(headers));
    FurtherEntriesAreIgnored(trust, Reversed(Entries(headers)), Reversed(Entries(earlier)));
    EntriesOfExtended(text, headers);
    ReversedOfConcat(EntriesOf(text), Entries(headers));
    FurtherEntriesAreIgnored(trust, Reversed(Entries(headers)), Reversed(EntriesOf(text)));
  }

  lemma EntriesOfOne(h: string)
    ensures Entries([h]) == EntriesOf(h)
  {
    assert [h][..0] == [] && [] + EntriesOf(h) == EntriesOf(h);
  }

  lemma EntriesOfExtended(text: string, headers: seq<string>)
    requires headers != []
    ensures Entries([text + "," + headers[0]] + headers[1..]) == EntriesOf(text) + Entries(headers)
  {
    EntriesOfConcat([text + "," + headers[0]], headers[1..]);
    EntriesOfConcat([headers[0]], headers[1..]);
    assert headers == [headers[0]] + headers[1..];
    EntriesOfOne(text + "," + headers[0]);
    EntriesOfOne(headers[0]);
    EntriesOfJoined(text, headers[0]);
    Associate(EntriesOf(text), EntriesOf(headers[0]), Entries(headers[1..]));
  }

  // ---------- What the entries are ----------

  /** White space among the ASCII characters: tab, line feed, vertical tab, form feed, carriage return, blank. */
  lemma AsciiSpaces(c: char)
    requires c as int < 128
    ensures IsSpace(c) <==> c as int in {9, 10, 11, 12, 13, 32}
  {
  }

  predicate AllSpace(s: string, from: nat, to: nat)
    requires to <= |s|
  {
    forall k | from <= k < to :: IsSpace(s[k])
  }

  /** All white space outside `s[i..j]`, and none at its ends. */
  predicate Trims(s: string, i: nat, j: nat) {
    && i <= j <= |s| && AllSpace(s, 0, i) && AllSpace(s, j, |s|)
    && (i < j ==> !IsSpace(s[i]) && !IsSpace(s[j - 1]))
  }

  lemma LeadingSpaceTrims(s: string, i: nat, j: nat)
    requires s != "" && IsSpace(s[0]) && Trims(s[1..], i, j)
    ensures Trims(s, i + 1, j + 1) && s[i + 1..j + 1] == s[1..][i..j]
  {
    assert forall k | 1 <= k < |s| :: s[k] == s[1..][k - 1];
  }

  lemma TrailingSpaceTrims(s: string, i: nat, j: nat)
    requires s != "" && IsSpace(s[|s| - 1]) && Trims(s[..|s| - 1], i, j)
    ensures Trims(s, i, j) && s[i..j] == s[..|s| - 1][i..j]
  {
    assert forall k | 0 <= k < |s| - 1 :: s[k] == s[..|s| - 1][k];
  }

  /** Trimming cuts white space off both ends, all of it and nothing else. */
  lemma {:induction false} TrimSpaceTrims(s: string) returns (i: nat, j: nat)
    ensures Trims(s, i, j) && TrimSpace(s) == s[i..j]
    decreases |s|
  {
    if s == "" {
      i, j := 0, 0;
    } else if IsSpace(s[0]) {
      i, j := TrimSpaceTrims(s[1..]);
      LeadingSpaceTrims(s, i, j);
      i, j := i + 1, j + 1;
    } else if IsSpace(s[|s| - 1]) {
      i, j := TrimSpaceTrims(s[..|s| - 1]);
      TrailingSpaceTrims(s, i, j);
    } else {
      i, j := 0, |s|;
    }
  }

  /** Only a string of white space is trimmed to nothing. */
  lemma {:induction false} BlankExactlyWhenAllSpace(s: string)
    ensures TrimSpace(s) == "" <==> AllSpace(s, 0, |s|)
  {
    var i, j := TrimSpaceTrims(s);
    if i < j {
      assert TrimSpace(s)[0] == s[i];
    }
  }

  /** The parts are what the commas separate: they hold none, and joined by commas they are the header. */
  lemma {:induction false} SplitSeparates(h: string)
    ensures Join(Split(h)) == h && NoCommas(Split(h))
    decreases |h|
  {
    if h != "" {
      var n := |h| - 1;
      SplitSeparates(h[..n]);
      JoinOfExtended(Split(h[..n]), h[n]);
      ExtendedHoldsNoCommas(Split(h[..n]), h[n]);
      assert h == h[..n] + [h[n]];
    }
  }

  predicate NoCommas(parts: seq<string>) {
    forall k | 0 <= k < |parts| :: ',' !in parts[k]
  }

  lemma ExtendedHoldsNoCommas(parts: seq<string>, c: char)
    requires |parts| >= 1 && NoCommas(parts)
    ensures NoCommas(Extended(parts, c))
  {
  }

  lemma {:induction false} JoinOfExtended(parts: seq<string>, c: char)
    requires |parts| >= 1
    ensures Join(Extended(parts, c)) == Join(parts) + [c]
  {
    var n, all := |parts| - 1, Extended(parts, c);
    assert all[..|all| - 1] == if c == ',' then parts else parts[..n];
    if c == ',' {
      assert Join(all) == Join(parts) + "," + "";
    } else if n > 0 {
      assert Join(parts) + [c] == Join(parts[..n]) + "," + (parts[n] + [c]);
    }
  }

  lemma {:induction false} TrimmedAreParts(parts: seq<string>, e: string)
    ensures e in NonEmptyTrimmed(parts) <==> e != "" && exists k | 0 <= k < |parts| :: TrimSpace(parts[k]) == e
    decreases |parts|
  {
    if parts != [] {
      var n := |parts| - 1;
      TrimmedAreParts(parts[..n], e);
      assert parts == parts[..n] + [parts[n]];
      assert forall k | 0 <= k < n :: parts[..n][k] == parts[k];
      assert e in Optional(TrimSpace(parts[n])) <==> e != "" && TrimSpace(parts[n]) == e;
    }
  }

  /** `e` is a comma part of some header, trimmed, and not blank. */
  predicate IsTrimmedPart(headers: seq<string>, e: string) {
    e != "" && exists h | h in headers :: PartOf(h, e)
  }

  predicate PartOf(header: string, e: string) {
    exists k | 0 <= k < |Split(header)| :: TrimSpace(Split(header)[k]) == e
  }

  /** The entries of a chain are the trimmed comma parts of its headers, without the blank ones. */
  lemma {:induction false} EntriesAreTrimmedParts(headers: seq<string>, e: string)
    ensures e in Entries(headers) <==> IsTrimmedPart(headers, e)
    decreases |headers|
  {
    if headers != [] {
      var n := |headers| - 1;
      EntriesAreTrimmedParts(headers[..n], e);
      LastHeaderAdds(headers, e);
    }
  }

  lemma LastHeaderAdds(headers: seq<string>, e: string)
    requires headers != []
    ensures var init, last := headers[..|headers| - 1], headers[|headers| - 1];
            && (e in Entries(headers) <==> e in Entries(init) || (e != "" && PartOf(last, e)))
            && (IsTrimmedPart(headers, e) <==> IsTrimmedPart(init, e) || (e != "" && PartOf(last, e)))
  {
    var init, last := headers[..|headers| - 1], headers[|headers| - 1];
    assert headers == init + [last];
    EntriesOfHeader(last, e);
    TrimmedPartsGrow(init, last, e);
    InConcat(Entries(init), EntriesOf(last), e);
  }

  lemma TrimmedPartsGrow(headers: seq<string>, last: string, e: string)
    ensures IsTrimmedPart(headers + [last], e) <==> IsTrimmedPart(headers, e) || (e != "" && PartOf(last, e))
  {
    assert forall h :: h in headers + [last] <==> h in headers || h == last;
  }

  lemma InConcat<T>(a: seq<T>, b: seq<T>, e: T)
    ensures e in a + b <==> e in a || e in b
  {
  }

  lemma EntriesOfHeader(h: string, e: string)
    ensures e in EntriesOf(h) <==> e != "" && PartOf(h, e)
  {
    TrimmedAreParts(Split(h), e);
  }

  lemma {:induction false} ReversedHasTheSame<T>(s: seq<T>, e: T)
    ensures e in Reversed(s) <==> e in s
    decreases |s|
  {
    if s != [] {
      ReversedHasTheSame(s[..|s| - 1], e);
      assert s == s[..|s| - 1] + [s[|s| - 1]];
    }
  }

  lemma {:induction false} VisitedAreEntries<Addr>(trust: Trust<Addr>, entries: seq<string>, e: string)
    ensures e in UpToStop(trust, entries) ==> e in entries
    decreases |entries|
  {
    if entries != [] && !trust.Stops(entries[0]) {
      VisitedAreEntries(trust, entries[1..], e);
    }
  }

  /** What the visitor is shown are such parts, and if the walk never stops, all of them. */
  lemma {:induction false} VisitedAreTrimmedParts<Addr>(trust: Trust<Addr>, headers: seq<string>, e: string)
    ensures var visited := UpToStop(trust, Reversed(Entries(headers)));
            && (e in visited ==> IsTrimmedPart(headers, e))
            && (!Stopped(trust, visited) && IsTrimmedPart(headers, e) ==> e in visited)
  {
    VisitedAreEntries(trust, Reversed(Entries(headers)), e);
    ReversedHasTheSame(Entries(headers), e);
    EntriesAreTrimmedParts(headers, e);
    UnstoppedVisitsAll(trust, Reversed(Entries(headers)));
  }

  lemma {:induction false} UnstoppedVisitsAll<Addr>(trust: Trust<Addr>, entries: seq<string>)
    ensures !Stopped(trust, UpToStop(trust, entries)) ==> UpToStop(trust, entries) == entries
    decreases |entries|
  {
    if entries != [] && !trust.Stops(entries[0]) {
      UnstoppedVisitsAll(trust, entries[1..]);
      var visited, rest := UpToStop(trust, entries), UpToStop(trust, entries[1..]);
      assert visited == [entries[0]] + rest;
      assert rest != [] ==> visited[|visited| - 1] == rest[|rest| - 1];
      assert entries == [entries[0]] + entries[1..];
    }
  }
}
