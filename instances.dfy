/**
  instance.rb: one line of a dataset file describes one knapsack instance,
  `capacity price_0 weight_0 price_1 weight_1 ...`, all non-negative
  decimal integers separated by whitespace.
 */
module Instances {

  /** The errors raised while parsing a dataset; `Message` gives the text the source raises. */
  datatype ParseError =
    | MissingId
    | FirstLineNotId
    | NegativeId
    | IdNotInteger
    | MissingCapacity
    | MissingPairs
    | NegativeNumber
    | NotOnlyIntegers
    | MissingInstances

  function Message(e: ParseError): string
  {
    match e
    case MissingId => "dataset: missing ID"
    case FirstLineNotId => "dataset: first line does not contain ID"
    case NegativeId => "dataset: ID is negative"
    case IdNotInteger => "dataset: ID is not an integer"
    case MissingCapacity => "dataset: missing knapsack capacity"
    case MissingPairs => "dataset: missing pairs (price, weight)"
    case NegativeNumber => "dataset: instance desctiption contains negative number"
    case NotOnlyIntegers => "dataset: instance desctiption does not contain only integers"
    case MissingInstances => "dataset: missing instances"
  }

  datatype Result<T> = Success(value: T) | Failure(error: ParseError) {
    predicate IsFailure() { Failure? }
    function PropagateFailure<U>(): Result<U> requires Failure? { Failure(error) }
    function Extract(): T requires Success? { value }
  }

  datatype Option<T> = None | Some(value: T)

  /** A thing of an instance as parsed: its price, its weight and its position in the line. */
  datatype Thing = Thing(price: nat, weight: nat, index: nat)

  /** A parsed instance, before any solver touches it. */
  datatype InstanceData = InstanceData(capacity: nat, things: seq<Thing>)

  // ------------------------------------------------------------ whitespace

  /** The characters that separate words: space, \t, \n, \v, \f, \r. */
  predicate IsSpace(ch: char)
  {
    ch == ' ' || 9 <= ch as int <= 13
  }

  predicate IsWord(t: string)
  {
    |t| > 0 && forall i :: 0 <= i < |t| ==> !IsSpace(t[i])
  }

  /** Length of the longest prefix of `s` without whitespace. */
  function WordLength(s: string): (k: nat)
    ensures k <= |s|
    ensures forall i :: 0 <= i < k ==> !IsSpace(s[i])
    ensures k == |s| || IsSpace(s[k])
  {
    if s == [] || IsSpace(s[0]) then 0 else 1 + WordLength(s[1..])
  }

  /** The words of a line, in order, ignoring leading, trailing and repeated whitespace. */
  function Split(s: string): (words: seq<string>)
    ensures forall i :: 0 <= i < |words| ==> IsWord(words[i])
    decreases |s|
  {
    if s == [] then []
    else if IsSpace(s[0]) then Split(s[1..])
    else
      var k := WordLength(s);
      [s[..k]] + Split(s[k..])
  }

  /** The words joined by single spaces. */
  function Join(words: seq<string>): string
  {
    if words == [] then ""
    else if |words| == 1 then words[0]
    else words[0] + " " + Join(words[1..])
  }

  lemma {:induction false} WordLengthOfWord(w: string, rest: string)
    requires IsWord(w)
    requires rest == [] || IsSpace(rest[0])
    ensures WordLength(w + rest) == |w|
    decreases |w|
  {
    if |w| > 1 {
      assert (w + rest)[1..] == w[1..] + rest;
      WordLengthOfWord(w[1..], rest);
    } else {
      assert (w + rest)[1..] == rest;
    }
  }

  /** A word followed by whitespace or nothing is split off as the first word. */
  lemma SplitWordThen(w: string, rest: string)
    requires IsWord(w)
    requires rest == [] || IsSpace(rest[0])
    ensures Split(w + rest) == [w] + Split(rest)
  {
    var s := w + rest;
    WordLengthOfWord(w, rest);
    assert s[..|w|] == w;
    assert s[|w|..] == rest;
  }

  /** Splitting joined words gives the words back. */
  lemma {:induction false} SplitJoin(words: seq<string>)
    requires forall i :: 0 <= i < |words| ==> IsWord(words[i])
    ensures Split(Join(words)) == words
  {
    if |words| == 1 {
      SplitWordThen(words[0], "");
      assert words[0] + "" == words[0];
    } else if |words| > 1 {
      var tail := Join(words[1..]);
      var rest := " " + tail;
      assert Join(words) == words[0] + rest;
      SplitWordThen(words[0], rest);
      assert rest[1..] == tail;
      SplitJoin(words[1..]);
      assert words == [words[0]] + words[1..];
    }
  }

  // ------------------------------------------------------------ integers

  predicate IsDigit(ch: char) { '0' <= ch <= '9' }

  predicate AllDigits(s: string)
  {
    |s| > 0 && forall i :: 0 <= i < |s| ==> IsDigit(s[i])
  }

  /** Decimal value of a string of digits. */
  function DigitsValue(s: string): nat
    requires forall i :: 0 <= i < |s| ==> IsDigit(s[i])
  {
    if s == [] then 0
    else
      assert IsDigit(s[|s| - 1]);
      DigitsValue(s[..|s| - 1]) * 10 + (s[|s| - 1] as int - '0' as int)
  }

  /** Conversion of one word to an integer: an optional sign followed by decimal digits. */
  function ParseInteger(w: string): Option<int>
  {
    if |w| > 1 && w[0] == '-' && AllDigits(w[1..]) then Some(0 - DigitsValue(w[1..]) as int)
    else if |w| > 1 && w[0] == '+' && AllDigits(w[1..]) then Some(DigitsValue(w[1..]))
    else if AllDigits(w) then Some(DigitsValue(w))
    else None
  }

  function DigitChar(d: nat): (ch: char)
    requires d < 10
    ensures IsDigit(ch) && ch as int - '0' as int == d
  {
    ('0' as int + d) as char
  }

  /** The canonical decimal rendering of a natural number. */
  function ToDecimal(n: nat): (s: string)
    ensures AllDigits(s) && DigitsValue(s) == n
    ensures s[0] == '0' ==> s == "0"
  {
    if n < 10 then [DigitChar(n)]
    else
      var prefix := ToDecimal(n / 10);
      var s := prefix + [DigitChar(n % 10)];
      assert s[..|s| - 1] == prefix;
      s
  }

  /** A word written by `ToDecimal`: digits without leading zeros. */
  predicate IsCanonical(w: string)
  {
    AllDigits(w) && (w[0] == '0' ==> |w| == 1)
  }

  /** Canonical words are exactly the renderings of their values. */
  lemma {:induction false} CanonicalDecimal(w: string)
    requires IsCanonical(w)
    ensures ToDecimal(DigitsValue(w)) == w
    decreases |w|
  {
    if |w| > 1 {
      var p := w[..|w| - 1];
      var last := w[|w| - 1];
      assert p[0] == w[0];
      assert IsCanonical(p);
      CanonicalDecimal(p);
      LeadingDigitPositive(p);
      var d := last as int - '0' as int;
      assert DigitsValue(w) == DigitsValue(p) * 10 + d;
      ToDecimalSnoc(DigitsValue(p), d);
      assert DigitChar(d) == last;
      assert w == p + [last];
    }
  }

  /** A number of two or more digits is written as its leading digits followed by its last digit. */
  lemma ToDecimalSnoc(q: nat, d: nat)
    requires 1 <= q && d < 10
    ensures ToDecimal(q * 10 + d) == ToDecimal(q) + [DigitChar(d)]
  {
    var n := q * 10 + d;
    assert n / 10 == q && n % 10 == d;
  }

  lemma {:induction false} LeadingDigitPositive(p: string)
    requires AllDigits(p) && p[0] != '0'
    ensures DigitsValue(p) >= 1
    decreases |p|
  {
    if |p| > 1 {
      assert p[..|p| - 1][0] == p[0];
      LeadingDigitPositive(p[..|p| - 1]);
    }
  }

  lemma ParseToDecimal(n: nat)
    ensures IsCanonical(ToDecimal(n)) && ParseInteger(ToDecimal(n)) == Some(n)
  {
  }

  // ------------------------------------------------------- split_line

  /** The word converts to an integer and that integer is not negative. */
  predicate GoodWord(w: string)
  {
    ParseInteger(w).Some? && ParseInteger(w).value >= 0
  }

  /** The error one bad word raises: a non-integer wins over nothing, a negative number is reported as such. */
  function WordError(w: string): ParseError
  {
    if ParseInteger(w).None? then NotOnlyIntegers else NegativeNumber
  }

  /** The integer conversion of the words, left to right, stopping at the first bad word. */
  function ConvertWords(words: seq<string>): (r: Result<seq<nat>>)
    ensures r.Success? ==> |r.value| == |words|
    ensures r.Success? ==> forall i :: 0 <= i < |words| ==> ParseInteger(words[i]) == Some(r.value[i] as int)
    ensures r.Failure? ==> r.error == NotOnlyIntegers || r.error == NegativeNumber
  {
    if words == [] then Success([])
    else
      match ParseInteger(words[0])
      case None => Failure(NotOnlyIntegers)
      case Some(v) =>
        if v < 0 then Failure(NegativeNumber)
        else
          var rest :- ConvertWords(words[1..]);
          Success([v as nat] + rest)
  }

  /** Conversion succeeds exactly when every word is a non-negative integer. */
  lemma {:induction false} ConvertWordsSucceeds(words: seq<string>)
    ensures ConvertWords(words).Success? <==> forall i :: 0 <= i < |words| ==> GoodWord(words[i])
  {
    if words != [] {
      ConvertWordsSucceeds(words[1..]);
      assert forall i :: 1 <= i < |words| ==> words[i] == words[1..][i - 1];
    }
  }

  /** The first bad word decides the error, whatever follows it. */
  lemma {:induction false} ConvertWordsFirstBad(words: seq<string>, i: nat)
    requires i < |words|
    requires forall j :: 0 <= j < i ==> GoodWord(words[j])
    requires !GoodWord(words[i])
    ensures ConvertWords(words) == Failure(WordError(words[i]))
  {
    if i > 0 {
      ConvertWordsFirstBad(words[1..], i - 1);
    }
  }

  /** The integers of a line; the conversion errors take precedence over the count checks. */
  function SplitLine(line: string): (r: Result<seq<nat>>)
    ensures r.Success? ==> |r.value| % 2 == 1
    ensures r.Success? ==> ConvertWords(Split(line)) == r
    ensures r.Failure? && ConvertWords(Split(line)).Success? ==>
              r.error == (if |Split(line)| == 0 then MissingCapacity else MissingPairs)
    ensures ConvertWords(Split(line)).Failure? ==> r == ConvertWords(Split(line))
  {
    var items :- ConvertWords(Split(line));
    if |items| == 0 then Failure(MissingCapacity)
    else if |items| % 2 == 0 then Failure(MissingPairs)
    else Success(items)
  }

  /** Things from the price/weight pairs, numbered from `first`. */
  function PairsToThings(values: seq<nat>, first: nat): (things: seq<Thing>)
    requires |values| % 2 == 0
    ensures 2 * |things| == |values|
    ensures forall i :: 0 <= i < |things| ==>
              things[i] == Thing(values[2 * i], values[2 * i + 1], first + i)
  {
    if values == [] then []
    else
      var rest := PairsToThings(values[2..], first + 1);
      var things := [Thing(values[0], values[1], first)] + rest;
      forall i | 1 <= i < |things|
        ensures things[i] == Thing(values[2 * i], values[2 * i + 1], first + i)
      {
        assert things[i] == rest[i - 1];
        assert values[2..][2 * (i - 1)] == values[2 * i];
        assert values[2..][2 * (i - 1) + 1] == values[2 * i + 1];
      }
      things
  }

  /** `Instance.parse`: capacity first, then one thing per price/weight pair. */
  function Parse(line: string): (r: Result<InstanceData>)
    ensures r.Success? ==> (
              && |Split(line)| % 2 == 1
              && |r.value.things| == (|Split(line)| - 1) / 2
              && ParseInteger(Split(line)[0]) == Some(r.value.capacity as int)
              && forall i :: 0 <= i < |r.value.things| ==> (
                   && ParseInteger(Split(line)[1 + 2 * i]) == Some(r.value.things[i].price as int)
                   && ParseInteger(Split(line)[2 + 2 * i]) == Some(r.value.things[i].weight as int)
                   && r.value.things[i].index == i))
    ensures r.Failure? ==> SplitLine(line).Failure? && r.error == SplitLine(line).error
    ensures r.Failure? ==> r.error in {MissingCapacity, MissingPairs, NegativeNumber, NotOnlyIntegers}
  {
    var items :- SplitLine(line);
    ParsedThings(Split(line), items);
    Success(InstanceData(items[0], PairsToThings(items[1..], 0)))
  }

  /** The things built from converted words carry the words' numbers, pair by pair. */
  lemma ParsedThings(words: seq<string>, items: seq<nat>)
    requires |items| == |words| && |items| % 2 == 1
    requires forall i :: 0 <= i < |words| ==> ParseInteger(words[i]) == Some(items[i] as int)
    ensures |PairsToThings(items[1..], 0)| == (|words| - 1) / 2
    ensures forall i :: 0 <= i < |PairsToThings(items[1..], 0)| ==> (
              && ParseInteger(words[1 + 2 * i]) == Some(PairsToThings(items[1..], 0)[i].price as int)
              && ParseInteger(words[2 + 2 * i]) == Some(PairsToThings(items[1..], 0)[i].weight as int)
              && PairsToThings(items[1..], 0)[i].index == i)
  {
    var things := PairsToThings(items[1..], 0);
    forall i | 0 <= i < |things|
      ensures ParseInteger(words[1 + 2 * i]) == Some(things[i].price as int)
      ensures ParseInteger(words[2 + 2 * i]) == Some(things[i].weight as int)
      ensures things[i].index == i
    {
      assert things[i] == Thing(items[1..][2 * i], items[1..][2 * i + 1], i);
      assert items[1..][2 * i] == items[1 + 2 * i];
      assert items[1..][2 * i + 1] == items[2 + 2 * i];
    }
  }

  /** The error cases of `Parse`, in the order the source checks them. */
  lemma ParseErrors(line: string)
    ensures |Split(line)| == 0 ==> Parse(line) == Failure(MissingCapacity)
    ensures (forall i :: 0 <= i < |Split(line)| ==> GoodWord(Split(line)[i])) ==>
              (Parse(line).Success? <==> |Split(line)| % 2 == 1)
    ensures (forall i :: 0 <= i < |Split(line)| ==> GoodWord(Split(line)[i])) && |Split(line)| > 0 && |Split(line)| % 2 == 0 ==>
              Parse(line) == Failure(MissingPairs)
  {
    ConvertWordsSucceeds(Split(line));
  }

  /** A line of an odd number of words, all of them non-negative integers, parses. */
  lemma ParseSucceeds(line: string, n: nat)
    requires |Split(line)| == 1 + 2 * n
    requires forall i :: 0 <= i < 1 + 2 * n ==> GoodWord(Split(line)[i])
    ensures Parse(line).Success?
  {
    assert |Split(line)| % 2 == 1;
    ParseErrors(line);
  }

  /** The first word that is not a non-negative integer decides the error, before any count check. */
  lemma ParseFirstBadWord(line: string, i: nat)
    requires i < |Split(line)|
    requires forall j :: 0 <= j < i ==> GoodWord(Split(line)[j])
    requires !GoodWord(Split(line)[i])
    ensures Parse(line) == Failure(WordError(Split(line)[i]))
  {
    ConvertWordsFirstBad(Split(line), i);
  }

  // ------------------------------------------------------- round trip

  /** The line that describes an instance: capacity, then price and weight of each thing in index order. */
  function Serialize(d: InstanceData): string
  {
    Join([ToDecimal(d.capacity)] + ThingWords(d.things))
  }

  function ThingWords(things: seq<Thing>): (words: seq<string>)
    ensures |words| == 2 * |things|
  {
    if things == [] then []
    else [ToDecimal(things[0].price), ToDecimal(things[0].weight)] + ThingWords(things[1..])
  }

  /** Word 2i is the price of thing i, word 2i+1 its weight. */
  lemma {:induction false} ThingWordsAt(things: seq<Thing>, i: nat)
    requires i < |things|
    ensures ThingWords(things)[2 * i] == ToDecimal(things[i].price)
    ensures ThingWords(things)[2 * i + 1] == ToDecimal(things[i].weight)
  {
    if i > 0 {
      ThingWordsAt(things[1..], i - 1);
      var rest := ThingWords(things[1..]);
      assert ThingWords(things)[2 * i] == rest[2 * (i - 1)];
      assert ThingWords(things)[2 * i + 1] == rest[2 * (i - 1) + 1];
    }
  }

  /** Things numbered by their position, as `Parse` produces them. */
  predicate IndexedInOrder(things: seq<Thing>)
  {
    forall i :: 0 <= i < |things| ==> things[i].index == i
  }

  /** A canonical word is a word, converts to its decimal value, and that value is not negative. */
  lemma CanonicalParses(w: string)
    requires IsCanonical(w)
    ensures IsWord(w) && GoodWord(w) && ParseInteger(w) == Some(DigitsValue(w) as int)
  {
  }

  lemma {:induction false} ThingWordsCanonical(things: seq<Thing>)
    ensures forall j :: 0 <= j < |ThingWords(things)| ==> IsCanonical(ThingWords(things)[j])
  {
    if things != [] {
      ThingWordsCanonical(things[1..]);
      ParseToDecimal(things[0].price);
      ParseToDecimal(things[0].weight);
    }
  }

  /** The words of a written instance: what each converts to, and that the line splits into them. */
  lemma SerializedWords(d: InstanceData)
    ensures Split(Serialize(d)) == [ToDecimal(d.capacity)] + ThingWords(d.things)
    ensures forall i :: 0 <= i < 1 + 2 * |d.things| ==>
              GoodWord(([ToDecimal(d.capacity)] + ThingWords(d.things))[i])
    ensures ParseInteger(ToDecimal(d.capacity)) == Some(d.capacity as int)
    ensures forall i :: 0 <= i < |d.things| ==>
              ParseInteger(ThingWords(d.things)[2 * i]) == Some(d.things[i].price as int) &&
              ParseInteger(ThingWords(d.things)[2 * i + 1]) == Some(d.things[i].weight as int)
  {
    var words := [ToDecimal(d.capacity)] + ThingWords(d.things);
    ThingWordsCanonical(d.things);
    ParseToDecimal(d.capacity);
    forall i | 0 <= i < |words| ensures IsWord(words[i]) && GoodWord(words[i]) {
      if i > 0 { assert words[i] == ThingWords(d.things)[i - 1]; }
      CanonicalParses(words[i]);
    }
    SplitJoin(words);
    forall i | 0 <= i < |d.things|
      ensures ParseInteger(ThingWords(d.things)[2 * i]) == Some(d.things[i].price as int)
      ensures ParseInteger(ThingWords(d.things)[2 * i + 1]) == Some(d.things[i].weight as int)
    {
      ThingWordsAt(d.things, i);
      ParseToDecimal(d.things[i].price);
      ParseToDecimal(d.things[i].weight);
    }
  }

  /** Writing an instance and parsing the line gives the instance back. */
  lemma SerializeParse(d: InstanceData)
    requires IndexedInOrder(d.things)
    ensures Parse(Serialize(d)) == Success(d)
  {
    SerializedWords(d);
    ParseWords(Serialize(d), d);
  }

  /** A line whose words convert to the capacity and then the pairs of `d` parses to `d`. */
  lemma ParseWords(line: string, d: InstanceData)
    requires IndexedInOrder(d.things)
    requires Split(line) == [ToDecimal(d.capacity)] + ThingWords(d.things)
    requires forall i :: 0 <= i < 1 + 2 * |d.things| ==> GoodWord(Split(line)[i])
    requires ParseInteger(ToDecimal(d.capacity)) == Some(d.capacity as int)
    requires forall i :: 0 <= i < |d.things| ==>
               ParseInteger(ThingWords(d.things)[2 * i]) == Some(d.things[i].price as int) &&
               ParseInteger(ThingWords(d.things)[2 * i + 1]) == Some(d.things[i].weight as int)
    ensures Parse(line) == Success(d)
  {
    ParseSucceeds(line, |d.things|);
    SameNumbers(Split(line), Parse(line).value, d);
  }

  /** Two instances read from the same words, capacity first and then pair by pair, are equal. */
  lemma SameNumbers(words: seq<string>, e: InstanceData, d: InstanceData)
    requires IndexedInOrder(d.things) && IndexedInOrder(e.things)
    requires words == [ToDecimal(d.capacity)] + ThingWords(d.things)
    requires |e.things| == (|words| - 1) / 2
    requires ParseInteger(words[0]) == Some(e.capacity as int)
    requires ParseInteger(ToDecimal(d.capacity)) == Some(d.capacity as int)
    requires forall i :: 0 <= i < |e.things| ==>
               ParseInteger(words[1 + 2 * i]) == Some(e.things[i].price as int) &&
               ParseInteger(words[2 + 2 * i]) == Some(e.things[i].weight as int)
    requires forall i :: 0 <= i < |d.things| ==>
               ParseInteger(ThingWords(d.things)[2 * i]) == Some(d.things[i].price as int) &&
               ParseInteger(ThingWords(d.things)[2 * i + 1]) == Some(d.things[i].weight as int)
    ensures e == d
  {
    var n := |d.things|;
    assert (|words| - 1) / 2 == n;
    forall i | 0 <= i < n ensures e.things[i] == d.things[i] {
      assert words[1 + 2 * i] == ThingWords(d.things)[2 * i];
      assert words[2 + 2 * i] == ThingWords(d.things)[2 * i + 1];
    }
    assert e.things == d.things;
  }

  /** For a line of canonical decimal words, writing the parsed instance gives the same words. */
  lemma ParseSerialize(line: string)
    requires Parse(line).Success?
    requires forall i :: 0 <= i < |Split(line)| ==> IsCanonical(Split(line)[i])
    ensures Split(Serialize(Parse(line).value)) == Split(line)
  {
    var d := Parse(line).value;
    var out := [ToDecimal(d.capacity)] + ThingWords(d.things);
    RenderParsedWords(Split(line), d);
    forall i | 0 <= i < |out| ensures IsWord(out[i]) {
      CanonicalParses(out[i]);
    }
    SplitJoin(out);
  }

  /** Canonical words that parse to an instance are rendered back to themselves. */
  lemma RenderParsedWords(words: seq<string>, d: InstanceData)
    requires |words| == 1 + 2 * |d.things|
    requires forall i :: 0 <= i < |words| ==> IsCanonical(words[i])
    requires ParseInteger(words[0]) == Some(d.capacity as int)
    requires forall k :: 0 <= k < |d.things| ==>
               ParseInteger(words[1 + 2 * k]) == Some(d.things[k].price as int) &&
               ParseInteger(words[2 + 2 * k]) == Some(d.things[k].weight as int)
    ensures [ToDecimal(d.capacity)] + ThingWords(d.things) == words
  {
    var out := [ToDecimal(d.capacity)] + ThingWords(d.things);
    forall i | 0 <= i < |words| ensures out[i] == words[i] {
      if i == 0 {
        CanonicalWordIsRendering(words[0], d.capacity);
      } else {
        var k := (i - 1) / 2;
        assert i == 1 + 2 * k || i == 2 + 2 * k;
        RenderThingWords(words, d, k);
      }
    }
  }

  /** The two words of thing `k` are rendered back to themselves. */
  lemma RenderThingWords(words: seq<string>, d: InstanceData, k: nat)
    requires |words| == 1 + 2 * |d.things| && k < |d.things|
    requires forall i :: 0 <= i < |words| ==> IsCanonical(words[i])
    requires forall k :: 0 <= k < |d.things| ==>
               ParseInteger(words[1 + 2 * k]) == Some(d.things[k].price as int) &&
               ParseInteger(words[2 + 2 * k]) == Some(d.things[k].weight as int)
    ensures ([ToDecimal(d.capacity)] + ThingWords(d.things))[1 + 2 * k] == words[1 + 2 * k]
    ensures ([ToDecimal(d.capacity)] + ThingWords(d.things))[2 + 2 * k] == words[2 + 2 * k]
  {
    ThingWordsAt(d.things, k);
    CanonicalWordIsRendering(words[1 + 2 * k], d.things[k].price);
    CanonicalWordIsRendering(words[2 + 2 * k], d.things[k].weight);
  }

  lemma CanonicalWordIsRendering(w: string, n: nat)
    requires IsCanonical(w) && ParseInteger(w) == Some(n as int)
    ensures ToDecimal(n) == w
  {
    CanonicalParses(w);
    CanonicalDecimal(w);
  }

  // ------------------------------------------------------- the shared instance object

  function PricesOf(things: seq<Thing>): (p: seq<nat>)
    ensures |p| == |things| && forall i :: 0 <= i < |things| ==> p[i] == things[i].price
  {
    seq(|things|, i requires 0 <= i < |things| => things[i].price)
  }

  function WeightsOf(things: seq<Thing>): (w: seq<nat>)
    ensures |w| == |things| && forall i :: 0 <= i < |things| ==> w[i] == things[i].weight
  {
    seq(|things|, i requires 0 <= i < |things| => things[i].weight)
  }

  /**
    The instance object the solvers share. Its things' prices can be
    rewritten in place (the approximation scheme does so); capacity and
    weights never change. Thing i sits at position i.
   */
  class Instance {
    const capacity: nat
    const weights: seq<nat>
    var prices: seq<nat>

    ghost predicate Valid()
      reads this
    {
      |prices| == |weights|
    }

    constructor (d: InstanceData)
      ensures Valid()
      ensures capacity == d.capacity && prices == PricesOf(d.things) && weights == WeightsOf(d.things)
    {
      capacity := d.capacity;
      prices := PricesOf(d.things);
      weights := WeightsOf(d.things);
    }
  }
}
