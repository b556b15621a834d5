/**
 * `HTTPRequest` (code/ThreadedServer.java): a request line and the header
 * lines after it, read into a method, a path and a map of headers. The lines
 * are given as the sequence `BufferedReader.readLine` would return them, with
 * their terminators removed; the end of the sequence is where `readLine`
 * returns `null`.
 */
module HttpRequest {
  import opened Wrappers
  import opened JavaText

  /** `line.trim().split("(\\s+)")` */
  function RequestLineParts(line: string): seq<string> {
    Split(Spaces, Trim(line))
  }

  /** `line.split("(:\\s*)")` */
  function HeaderParts(line: string): seq<string> {
    Split(ColonSpaces, line)
  }

  /** What the header loop makes of one line: a header to store, or the end of the headers. */
  datatype HeaderLine = Stop | Field(name: string, value: string)

  /** A blank line, or one that does not split into exactly two pieces, ends the headers. */
  function Classify(line: string): HeaderLine {
    if line == "" then Stop
    else
      var parts := HeaderParts(line);
      if |parts| != 2 then Stop else Field(parts[0], parts[1])
  }

  /** What the header loop makes of each line, in order. */
  function Classified(lines: seq<string>): (r: seq<HeaderLine>)
    ensures |r| == |lines|
  {
    if |lines| == 0 then [] else [Classify(lines[0])] + Classified(lines[1..])
  }

  /**
   * How many lines, from the start, the header loop stores before it stops:
   * at the end of the input or at the first line that ends the headers.
   */
  function AcceptedCount(kinds: seq<HeaderLine>): (k: nat)
    ensures k <= |kinds|
    ensures forall j :: 0 <= j < k ==> kinds[j].Field?
    ensures k < |kinds| ==> kinds[k].Stop?
  {
    if |kinds| == 0 || kinds[0].Stop? then 0 else 1 + AcceptedCount(kinds[1..])
  }

  predicate AllFields(kinds: seq<HeaderLine>) {
    forall j :: 0 <= j < |kinds| ==> kinds[j].Field?
  }

  /** The map after `put(name, value)` of every header, in order: a later one overwrites an earlier one. */
  function HeaderMap(fields: seq<HeaderLine>): map<string, string>
    requires AllFields(fields)
  {
    if |fields| == 0 then map[]
    else
      var last := fields[|fields| - 1];
      HeaderMap(fields[..|fields| - 1])[last.name := last.value]
  }

  /** The fields of a request: `null` is `None`. */
  datatype RequestView = RequestView(httpMethod: Option<string>, path: Option<string>, headers: map<string, string>)

  /**
   * What `parse` reads from `lines`: nothing without a first line or when the
   * first line is not three parts; otherwise the first two parts and the
   * headers up to where the loop stops.
   */
  function Parsed(lines: seq<string>): RequestView {
    if |lines| == 0 then RequestView(None, None, map[])
    else
      var parts := RequestLineParts(lines[0]);
      if |parts| != 3 then RequestView(None, None, map[])
      else
        var kinds := Classified(lines[1..]);
        RequestView(Some(parts[0]), Some(parts[1]), HeaderMap(kinds[..AcceptedCount(kinds)]))
  }

  // ---------------------------------------------------------------- lemmas

  lemma AppendAssociates<T>(a: seq<T>, b: seq<T>, c: seq<T>)
    ensures a + b + c == a + (b + c)
  {
  }

  lemma PrefixOfAppend<T>(a: seq<T>, b: seq<T>)
    ensures (a + b)[..|a|] == a
  {
  }

  /** Classifying lines one after another classifies each part. */
  lemma {:induction false} ClassifiedAppend(a: seq<string>, b: seq<string>)
    ensures Classified(a + b) == Classified(a) + Classified(b)
  {
    if |a| > 0 {
      assert (a + b)[0] == a[0];
      assert (a + b)[1..] == a[1..] + b;
      ClassifiedAppend(a[1..], b);
    } else {
      assert a + b == b;
    }
  }

  /** The kind of each line is what `Classify` makes of it. */
  lemma {:induction false} ClassifiedAt(lines: seq<string>, j: nat)
    requires j < |lines|
    ensures Classified(lines)[j] == Classify(lines[j])
  {
    if j > 0 {
      ClassifiedAt(lines[1..], j - 1);
    }
  }

  /** The loop goes on past a header it has reached. */
  lemma AcceptedCountPasses(kinds: seq<HeaderLine>, n: nat)
    requires n <= AcceptedCount(kinds) && n < |kinds| && kinds[n].Field?
    ensures n < AcceptedCount(kinds)
  {
  }

  /** The loop stops where it meets a line that ends the headers, or the end of the input. */
  lemma AcceptedCountAt(kinds: seq<HeaderLine>, n: nat)
    requires n <= AcceptedCount(kinds)
    requires n == |kinds| || kinds[n].Stop?
    ensures AcceptedCount(kinds) == n
  {
  }

  /**
   * The kind of the header line at index `i` of the input. `Parse` calls this
   * rather than ClassifiedAt so that its own context holds no slice of `lines`.
   */
  lemma KindAt(lines: seq<string>, i: nat)
    requires 1 <= i < |lines|
    ensures Classified(lines[1..])[i - 1] == Classify(lines[i])
  {
    ClassifiedAt(lines[1..], i - 1);
  }

  /** A line that splits into two pieces is a header with those pieces as name and value. */
  lemma ClassifyField(line: string)
    requires line != "" && |HeaderParts(line)| == 2
    ensures Classify(line) == Field(HeaderParts(line)[0], HeaderParts(line)[1])
  {
  }

  /** A blank line, or one that does not split into two pieces, ends the headers. */
  lemma ClassifyStop(line: string)
    requires line == "" || |HeaderParts(line)| != 2
    ensures Classify(line) == Stop
  {
  }

  /** A blank line ends the headers. */
  lemma ClassifiedBlank()
    ensures Classified([""]) == [Stop]
  {
    assert Classify("") == Stop;
  }

  /** Storing one more header is one more `put`. */
  lemma HeaderMapExtend(kinds: seq<HeaderLine>, n: nat)
    requires n < AcceptedCount(kinds)
    ensures HeaderMap(kinds[..n + 1]) == HeaderMap(kinds[..n])[kinds[n].name := kinds[n].value]
  {
    assert kinds[..n + 1][..n] == kinds[..n];
  }

  /** A name is a key exactly when some stored header has it. */
  lemma {:induction false} HeaderMapKeys(fields: seq<HeaderLine>, name: string)
    requires AllFields(fields)
    ensures name in HeaderMap(fields) <==> exists j :: 0 <= j < |fields| && fields[j].name == name
  {
    if |fields| > 0 {
      var init := fields[..|fields| - 1];
      HeaderMapKeys(init, name);
      assert forall j :: 0 <= j < |init| ==> init[j] == fields[j];
    }
  }

  /** The value stored under a name is the value of the last header with that name. */
  lemma {:induction false} HeaderMapLastWins(fields: seq<HeaderLine>, j: nat)
    requires AllFields(fields)
    requires j < |fields|
    requires forall j' :: j < j' < |fields| ==> fields[j'].name != fields[j].name
    ensures fields[j].name in HeaderMap(fields)
    ensures HeaderMap(fields)[fields[j].name] == fields[j].value
  {
    var init := fields[..|fields| - 1];
    if j < |init| {
      assert init[j] == fields[j];
      assert forall j' :: j < j' < |init| ==> init[j'] == fields[j'];
      HeaderMapLastWins(init, j);
    }
  }

  /** Once a line that ends the headers is among `kinds`, nothing after it is read. */
  lemma {:induction false} AcceptedCountStops(kinds: seq<HeaderLine>, more: seq<HeaderLine>)
    requires AcceptedCount(kinds) < |kinds|
    ensures AcceptedCount(kinds + more) == AcceptedCount(kinds)
    ensures (kinds + more)[..AcceptedCount(kinds)] == kinds[..AcceptedCount(kinds)]
  {
    if kinds[0].Field? {
      assert (kinds + more)[1..] == kinds[1..] + more;
      AcceptedCountStops(kinds[1..], more);
    }
  }

  /** `parse` depends only on the first line and the header lines it stores. */
  lemma ParsedCongruent(a: seq<string>, b: seq<string>)
    requires |a| > 0 && |b| > 0 && a[0] == b[0]
    requires var ka := Classified(a[1..]); var kb := Classified(b[1..]);
      ka[..AcceptedCount(ka)] == kb[..AcceptedCount(kb)]
    ensures Parsed(a) == Parsed(b)
  {
  }

  /**
   * `parse` reads no line after the one that ends the headers: input appended
   * after that line does not change the request.
   */
  lemma ParsedIgnoresLaterInput(lines: seq<string>, more: seq<string>)
    requires |lines| > 0 && AcceptedCount(Classified(lines[1..])) < |lines| - 1
    ensures Parsed(lines + more) == Parsed(lines)
  {
    var all := lines + more;
    assert all[0] == lines[0];
    assert all[1..] == lines[1..] + more;
    ClassifiedAppend(lines[1..], more);
    AcceptedCountStops(Classified(lines[1..]), Classified(more));
    ParsedCongruent(all, lines);
  }

  /** The headers before a blank line are all stored, and the blank line ends them. */
  lemma {:induction false} AcceptedBeforeStop(fields: seq<HeaderLine>, more: seq<HeaderLine>)
    requires AllFields(fields)
    ensures AcceptedCount(fields + [Stop] + more) == |fields|
  {
    if |fields| > 0 {
      assert (fields + [Stop] + more)[1..] == fields[1..] + [Stop] + more;
      AcceptedBeforeStop(fields[1..], more);
    } else {
      assert (fields + [Stop] + more)[0] == Stop;
    }
  }

  /** With a request line of three parts, `parse` takes its first two and reads headers from the rest. */
  lemma ParsedRequestLine(first: string, m: string, p: string, v: string, rest: seq<string>)
    requires RequestLineParts(first) == [m, p, v]
    ensures var kinds := Classified(rest);
      Parsed([first] + rest) == RequestView(Some(m), Some(p), HeaderMap(kinds[..AcceptedCount(kinds)]))
  {
    assert ([first] + rest)[0] == first;
    assert ([first] + rest)[1..] == rest;
  }

  /**
   * A request made of a well-formed request line, header lines and a blank
   * line is read back as its method, its path and the map of those headers.
   */
  lemma ParsedWellFormed(lead: string, m: string, sp1: string, p: string, sp2: string, v: string, trail: string,
                         headerLines: seq<string>, more: seq<string>)
    requires IsToken(m) && IsToken(p) && IsToken(v)
    requires |sp1| > 0 && |sp2| > 0 && IsWhitespace(sp1) && IsWhitespace(sp2)
    requires forall i :: 0 <= i < |lead| ==> IsTrimmed(lead[i])
    requires forall i :: 0 <= i < |trail| ==> IsTrimmed(trail[i])
    requires AllFields(Classified(headerLines))
    ensures Parsed([lead + m + sp1 + p + sp2 + v + trail] + headerLines + [""] + more)
      == RequestView(Some(m), Some(p), HeaderMap(Classified(headerLines)))
  {
    var first := lead + m + sp1 + p + sp2 + v + trail;
    var rest := headerLines + [""] + more;
    SplitRequestLine(lead, m, sp1, p, sp2, v, trail);
    AppendAssociates([first], headerLines + [""], more);
    AppendAssociates([first], headerLines, [""]);
    ParsedRequestLine(first, m, p, v, rest);
    ClassifiedAppend(headerLines + [""], more);
    ClassifiedAppend(headerLines, [""]);
    ClassifiedBlank();
    var fields := Classified(headerLines);
    AcceptedBeforeStop(fields, Classified(more));
    PrefixOfAppend(fields, [Stop] + Classified(more));
    AppendAssociates(fields, [Stop], Classified(more));
  }

  /** A header line `name: value` whose name and value hold no colon is stored under its name. */
  lemma HeaderLineStored(name: string, ows: string, value: string)
    requires NoSeparator(ColonSpaces, name) && NoSeparator(ColonSpaces, value)
    requires IsWhitespace(ows)
    requires |value| > 0 && !IsRegexSpace(value[0])
    ensures Classify(name + ":" + ows + value) == Field(name, value)
  {
    SplitHeaderLine(name, ows, value);
  }

  /** A header whose value holds a colon, as `Host: a:8124` does, ends the headers. */
  lemma ColonInValueStops(name: string, ows: string, a: string, b: string)
    requires NoSeparator(ColonSpaces, name) && NoSeparator(ColonSpaces, a) && NoSeparator(ColonSpaces, b)
    requires IsWhitespace(ows)
    requires |a| > 0 && !IsRegexSpace(a[0])
    requires |b| > 0 && !IsRegexSpace(b[0])
    ensures Classify(name + ":" + ows + a + ":" + b) == Stop
  {
    SplitColonInValue(name, ows, a, b);
  }

  /** A header with an empty value, as `Name:` has, ends the headers. */
  lemma EmptyValueStops(name: string, ows: string)
    requires |name| > 0 && NoSeparator(ColonSpaces, name)
    requires IsWhitespace(ows)
    ensures Classify(name + ":" + ows) == Stop
  {
    SplitEmptyValue(name, ows);
  }

  // ---------------------------------------------------------------- toString

  /** String concatenation renders `null` as "null". */
  function Show(v: Option<string>): string {
    if v.None? then "null" else v.value
  }

  /** The first three lines of `toString`. */
  function Banner(httpMethod: Option<string>, path: Option<string>): string {
    "Method: " + Show(httpMethod) + "\n" + "Path:   " + Show(path) + "\n" + "Headers:\n"
  }

  /** The line `toString` writes for one header. */
  function EntryLine(name: string, value: string): string {
    "\t" + name + " : " + value + "\n"
  }

  /** The lines for the headers named in `order`, in that order. */
  function EntryLines(headers: map<string, string>, order: seq<string>): (r: seq<string>)
    requires forall k :: k in order ==> k in headers
  {
    seq(|order|, i requires 0 <= i < |order| => EntryLine(order[i], headers[order[i]]))
  }

  /** The strings one after another. */
  function Concat(parts: seq<string>): string {
    if parts == [] then "" else Concat(parts[..|parts| - 1]) + parts[|parts| - 1]
  }

  lemma ConcatSnoc(parts: seq<string>, x: string)
    ensures Concat(parts + [x]) == Concat(parts) + x
  {
    assert (parts + [x])[..|parts|] == parts;
  }

  lemma EntryLinesSnoc(headers: map<string, string>, order: seq<string>, k: string)
    requires forall k' :: k' in order ==> k' in headers
    requires k in headers
    ensures EntryLines(headers, order + [k]) == EntryLines(headers, order) + [EntryLine(k, headers[k])]
  {
  }

  /** `order` lists every key once: an iteration order of a map with those keys. */
  predicate IsOrdering(order: seq<string>, keys: set<string>) {
    (forall i, j :: 0 <= i < j < |order| ==> order[i] != order[j])
    && (forall k :: k in order ==> k in keys)
    && (forall k :: k in keys ==> k in order)
  }

  /** `order` lists, once each, the keys visited so far: those not in `rest`. */
  ghost predicate IsPartialOrdering(order: seq<string>, keys: set<string>, rest: set<string>) {
    (forall i, j :: 0 <= i < j < |order| ==> order[i] != order[j])
    && (forall k :: k in order <==> k in keys && k !in rest)
  }

  /** Visiting one more key keeps the visited keys listed once each; with none left, every key is listed. */
  lemma PartialOrderingStep(order: seq<string>, keys: set<string>, rest: set<string>, k: string)
    requires IsPartialOrdering(order, keys, rest) && rest <= keys && k in rest
    ensures IsPartialOrdering(order + [k], keys, rest - {k})
    ensures forall k' :: k' in order ==> k' in keys
  {
  }

  /** A partial ordering with no key left is an ordering. */
  lemma PartialOrderingDone(order: seq<string>, keys: set<string>)
    requires IsPartialOrdering(order, keys, {})
    ensures IsOrdering(order, keys)
  {
  }

  /** An ordering has one entry per key. */
  lemma {:induction false} OrderingSize(order: seq<string>, keys: set<string>)
    requires IsOrdering(order, keys)
    ensures |order| == |keys|
  {
    if |order| > 0 {
      var x := order[|order| - 1];
      var init := order[..|order| - 1];
      assert forall k :: k in init <==> k in order && k != x;
      OrderingSize(init, keys - {x});
    } else {
      assert forall k :: k !in keys;
      assert keys == {};
    }
  }

  /** In an ordering, each key occurs once. */
  lemma {:induction false} OrderingMultiset(order: seq<string>, keys: set<string>)
    requires IsOrdering(order, keys)
    ensures forall k :: multiset(order)[k] == if k in keys then 1 else 0
  {
    if |order| > 0 {
      var x := order[|order| - 1];
      var init := order[..|order| - 1];
      assert order == init + [x];
      assert forall k :: k in init <==> k in order && k != x;
      OrderingMultiset(init, keys - {x});
    }
  }

  /** Two orderings of the same keys are permutations of each other. */
  lemma OrderingsPermute(o1: seq<string>, o2: seq<string>, keys: set<string>)
    requires IsOrdering(o1, keys) && IsOrdering(o2, keys)
    ensures multiset(o1) == multiset(o2)
  {
    OrderingMultiset(o1, keys);
    OrderingMultiset(o2, keys);
  }

  /** The lines for two orders one after the other are the lines for each. */
  lemma EntryLinesAppend(headers: map<string, string>, a: seq<string>, b: seq<string>)
    requires forall k :: k in a + b ==> k in headers
    ensures EntryLines(headers, a + b) == EntryLines(headers, a) + EntryLines(headers, b)
  {
    assert forall k :: k in a ==> k in a + b;
    assert forall k :: k in b ==> k in a + b;
  }

  /** Taking out the element at `j` takes one occurrence of it out of the multiset. */
  lemma RemoveAt<T>(s: seq<T>, j: nat)
    requires j < |s|
    ensures multiset(s[..j] + s[j + 1..]) == multiset(s) - multiset{s[j]}
  {
    assert s == s[..j] + [s[j]] + s[j + 1..];
  }

  lemma SplitAt<T>(s: seq<T>, j: nat)
    requires j < |s|
    ensures s == s[..j] + ([s[j]] + s[j + 1..])
  {
  }

  /** The lines of an order are those without its element `j`, plus that element's line. */
  lemma EntryLinesRemoveAt(headers: map<string, string>, o: seq<string>, j: nat)
    requires j < |o|
    requires forall k :: k in o ==> k in headers
    ensures forall k :: k in o[..j] + o[j + 1..] ==> k in headers
    ensures multiset(EntryLines(headers, o))
      == multiset(EntryLines(headers, o[..j] + o[j + 1..])) + multiset{EntryLine(o[j], headers[o[j]])}
  {
    var before, x, after := o[..j], o[j], o[j + 1..];
    SplitAt(o, j);
    EntryLinesAppend(headers, before, [x] + after);
    EntryLinesAppend(headers, [x], after);
    EntryLinesAppend(headers, before, after);
    var b, a := EntryLines(headers, before), EntryLines(headers, after);
    var line := EntryLine(x, headers[x]);
    assert EntryLines(headers, [x]) == [line];
    assert EntryLines(headers, o) == b + ([line] + a);
    assert multiset(b + ([line] + a)) == multiset(b) + multiset([line]) + multiset(a);
    assert multiset(b + a) == multiset(b) + multiset(a);
  }

  /** Moving the last key of one order into place `j` of another keeps the lines' multiset equal. */
  lemma EntryLinesMoveLast(headers: map<string, string>, o1: seq<string>, o2: seq<string>, j: nat)
    requires |o1| > 0 && j < |o2| && o2[j] == o1[|o1| - 1]
    requires forall k :: k in o1 ==> k in headers
    requires forall k :: k in o2 ==> k in headers
    requires multiset(EntryLines(headers, o1[..|o1| - 1])) == multiset(EntryLines(headers, o2[..j] + o2[j + 1..]))
    ensures multiset(EntryLines(headers, o1)) == multiset(EntryLines(headers, o2))
  {
    var n := |o1| - 1;
    EntryLinesRemoveAt(headers, o1, n);
    assert o1[..n] + o1[n + 1..] == o1[..n];
    EntryLinesRemoveAt(headers, o2, j);
  }

  /** Permuting the order permutes the lines. */
  lemma {:induction false} EntryLinesPermute(headers: map<string, string>, o1: seq<string>, o2: seq<string>)
    requires forall k :: k in o1 ==> k in headers
    requires multiset(o1) == multiset(o2)
    ensures forall k :: k in o2 ==> k in headers
    ensures multiset(EntryLines(headers, o1)) == multiset(EntryLines(headers, o2))
  {
    assert forall k :: k in o2 ==> k in multiset(o1);
    if |o1| == 0 {
      assert |multiset(o2)| == 0;
      assert |o2| == 0;
      assert EntryLines(headers, o1) == [] == EntryLines(headers, o2);
    } else {
      var n := |o1| - 1;
      var x := o1[n];
      RemoveAt(o1, n);
      assert o1[..n] + o1[n + 1..] == o1[..n];
      assert x in multiset(o2);
      var j :| 0 <= j < |o2| && o2[j] == x;
      RemoveAt(o2, j);
      EntryLinesPermute(headers, o1[..n], o2[..j] + o2[j + 1..]);
      EntryLinesMoveLast(headers, o1, o2, j);
    }
  }

  /** Every key of the map has its line, whatever the order. */
  lemma EntryLinesCover(headers: map<string, string>, order: seq<string>)
    requires IsOrdering(order, headers.Keys)
    ensures forall k :: k in headers ==> EntryLine(k, headers[k]) in EntryLines(headers, order)
  {
    forall k | k in headers
      ensures EntryLine(k, headers[k]) in EntryLines(headers, order)
    {
      var i :| 0 <= i < |order| && order[i] == k;
      assert EntryLines(headers, order)[i] == EntryLine(k, headers[k]);
    }
  }

  /**
   * Whatever order the map iterates in, `toString` writes the same header
   * lines: one per key, with that key's value.
   */
  lemma EntryLinesOrderFree(headers: map<string, string>, o1: seq<string>, o2: seq<string>)
    requires IsOrdering(o1, headers.Keys) && IsOrdering(o2, headers.Keys)
    ensures |EntryLines(headers, o1)| == |headers|
    ensures forall k :: k in headers ==> EntryLine(k, headers[k]) in EntryLines(headers, o1)
    ensures multiset(EntryLines(headers, o1)) == multiset(EntryLines(headers, o2))
  {
    EntryLinesCover(headers, o1);
    OrderingSize(o1, headers.Keys);
    OrderingsPermute(o1, o2, headers.Keys);
    EntryLinesPermute(headers, o1, o2);
  }

  /** The request: fields that `parse` fills in on a fresh object. */
  class HTTPRequest {
    var httpMethod: Option<string>
    var path: Option<string>
    var headers: map<string, string>

    /** `new HTTPRequest()`: null method and path, no headers. */
    constructor ()
      ensures httpMethod == None && path == None && headers == map[]
    {
      httpMethod := None;
      path := None;
      headers := map[];
    }

    function View(): RequestView
      reads this
    {
      RequestView(httpMethod, path, headers)
    }

    /**
     * `parse`: reads the request line, then header lines until the input ends,
     * a line is blank, or a line does not split into name and value.
     */
    static method Parse(lines: seq<string>) returns (request: HTTPRequest)
      ensures fresh(request)
      ensures request.View() == Parsed(lines)
    {
      request := new HTTPRequest();
      if |lines| == 0 {
        return;
      }
      var parts := RequestLineParts(lines[0]);
      if |parts| == 3 {
        request.httpMethod := Some(parts[0]);
        request.path := Some(parts[1]);
        ghost var kinds := Classified(lines[1..]);
        var i := 1;
        while true
          invariant 1 <= i <= |lines|
          invariant i - 1 <= AcceptedCount(kinds)
          invariant request.httpMethod == Some(parts[0]) && request.path == Some(parts[1])
          invariant request.headers == HeaderMap(kinds[..i - 1])
          decreases |lines| - i
        {
          if i == |lines| || |lines[i]| == 0 {
            if i < |lines| {
              KindAt(lines, i);
              ClassifyStop(lines[i]);
            }
            break;
          }
          var line := lines[i];
          var pieces := HeaderParts(line);
          KindAt(lines, i);
          if |pieces| != 2 {
            ClassifyStop(line);
            break;
          }
          ClassifyField(line);
          AcceptedCountPasses(kinds, i - 1);
          HeaderMapExtend(kinds, i - 1);
          request.headers := request.headers[pieces[0] := pieces[1]];
          i := i + 1;
        }
        AcceptedCountAt(kinds, i - 1);
      }
    }

    /** `toString`: three lines, then one line per header in the map's iteration order. */
    method ToString() returns (s: string, ghost order: seq<string>)
      ensures IsOrdering(order, headers.Keys)
      ensures s == Banner(httpMethod, path) + Concat(EntryLines(headers, order))
    {
      s := Banner(httpMethod, path);
      order := [];
      var rest := headers.Keys;
      while rest != {}
        invariant rest <= headers.Keys && IsPartialOrdering(order, headers.Keys, rest)
        invariant s == Banner(httpMethod, path) + Concat(EntryLines(headers, order))
        decreases rest
      {
        var k :| k in rest;
        PartialOrderingStep(order, headers.Keys, rest, k);
        EntryLinesSnoc(headers, order, k);
        ConcatSnoc(EntryLines(headers, order), EntryLine(k, headers[k]));
        AppendAssociates(Banner(httpMethod, path), Concat(EntryLines(headers, order)), EntryLine(k, headers[k]));
        s := s + EntryLine(k, headers[k]);
        order := order + [k];
        rest := rest - {k};
      }
      PartialOrderingDone(order, headers.Keys);
    }
  }
}
