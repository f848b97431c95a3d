/** The compact string encoding of timed sets (channels/timed_set.go:316-381). */
module TimedSetCodec {
  import opened Options
  import opened Numbers
  import opened Texts
  import opened TimedSets

  predicate IsValidChannel(channel: string) {
    channel != "" && ',' !in channel
  }

  // ---- printing

  function SequenceText(v: VbSequence): string {
    match v.vbNo
    case Some(vb) => Decimal(vb) + "." + Decimal(v.sequence)
    case None => Decimal(v.sequence)
  }

  function Item(channel: string, v: VbSequence): string {
    channel + ":" + SequenceText(v)
  }

  /** The entries that are printed. */
  ghost function Printable(set': TimedEntries): TimedEntries {
    map channel | channel in set' && set'[channel].sequence > 0 :: set'[channel]
  }

  ghost function Items(set': TimedEntries): set<string> {
    set channel | channel in set' :: Item(channel, set'[channel])
  }

  /** `text` prints a set: its items, sorted, with commas between them. */
  ghost predicate Prints(text: string, set': TimedEntries) {
    exists items :: IsPrint(items, text, set')
  }

  ghost predicate IsPrint(items: seq<string>, text: string, set': TimedEntries) {
    Increasing(items) && Elements(items) == Items(Printable(set')) && text == Join(items, ',')
  }

  /** The order in which the set is walked does not show in the text. */
  lemma PrintIsUnique(text: string, text': string, set': TimedEntries)
    requires Prints(text, set') && Prints(text', set')
    ensures text == text'
  {
    var items :| IsPrint(items, text, set');
    var items' :| IsPrint(items', text', set');
    OneArrangement(items, items');
  }

  method String(set': TimedEntries) returns (text: string)
    ensures Prints(text, set')
  {
    var items: seq<string> := [];
    ghost var walked: seq<string> := [];
    var todo := set'.Keys;
    while todo != {}
      invariant todo <= set'.Keys
      invariant forall channel :: channel in walked <==> channel in Printable(set') && channel !in todo
      invariant IsListing(items, walked, Printable(set'))
      decreases |todo|
    {
      var channel :| channel in todo;
      var vbSeq := set'[channel];
      if vbSeq.sequence > 0 {
        assert channel !in walked;
        ListingStep(items, walked, Printable(set'), channel);
        match vbSeq.vbNo {
          case Some(vb) => items := items + [channel + ":" + (Decimal(vb) + "." + Decimal(vbSeq.sequence))];
          case None => items := items + [channel + ":" + Decimal(vbSeq.sequence)];
        }
        walked := walked + [channel];
      }
      todo := todo - {channel};
    }
    ListingDistinct(items, walked, Printable(set'));
    ListingItems(items, walked, Printable(set'));
    items := SortStrings(items);
    text := Join(items, ',');
    assert IsPrint(items, text, set');
  }

  /** `items` are the items of `channels`, in the same order. */
  ghost predicate IsListing(items: seq<string>, channels: seq<string>, set': TimedEntries) {
    && |items| == |channels|
    && (forall i :: 0 <= i < |channels| ==> channels[i] in set' && items[i] == Item(channels[i], set'[channels[i]]))
    && forall i, j :: 0 <= i < j < |channels| ==> channels[i] != channels[j]
  }

  lemma ListingStep(items: seq<string>, channels: seq<string>, set': TimedEntries, channel: string)
    requires IsListing(items, channels, set') && channel in set' && channel !in channels
    ensures IsListing(items + [Item(channel, set'[channel])], channels + [channel], set')
  {}

  lemma ListingDistinct(items: seq<string>, channels: seq<string>, set': TimedEntries)
    requires IsListing(items, channels, set')
    ensures forall i, j :: 0 <= i < j < |items| ==> items[i] != items[j]
  {
    forall i, j | 0 <= i < j < |items|
      ensures items[i] != items[j]
    {
      ItemsDiffer(channels[i], set'[channels[i]], channels[j], set'[channels[j]]);
    }
  }

  lemma ListingItems(items: seq<string>, channels: seq<string>, set': TimedEntries)
    requires IsListing(items, channels, set') && forall channel :: channel in channels <==> channel in set'
    ensures Elements(items) == Items(set')
  {
    forall s | s in Items(set')
      ensures s in Elements(items)
    {
      var channel :| channel in set' && s == Item(channel, set'[channel]);
      var i :| 0 <= i < |channels| && channels[i] == channel;
      assert items[i] == s;
    }
    forall s | s in Elements(items)
      ensures s in Items(set')
    {
      var i :| 0 <= i < |items| && items[i] == s;
      assert channels[i] in channels;
    }
  }

  lemma SequenceTextPlain(v: VbSequence)
    ensures ':' !in SequenceText(v) && ',' !in SequenceText(v)
    ensures '.' in SequenceText(v) <==> v.vbNo.Some?
  {
    if v.vbNo.Some? {
      assert SequenceText(v)[|Decimal(v.vbNo.value)|] == '.';
    }
  }

  /** Different channels never print the same item, colons in their names or not. */
  lemma ItemsDiffer(channel: string, v: VbSequence, channel': string, v': VbSequence)
    requires channel != channel'
    ensures Item(channel, v) != Item(channel', v')
  {
    SequenceTextPlain(v);
    SequenceTextPlain(v');
    LastColon(channel, SequenceText(v), channel', SequenceText(v'));
  }

  lemma LastColon(a: string, s: string, b: string, t: string)
    requires ':' !in s && ':' !in t
    ensures a + ":" + s == b + ":" + t ==> a == b
  {
    var x, y := a + ":" + s, b + ":" + t;
    assert x[|a|] == ':' && y[|b|] == ':';
    assert forall k :: |a| < k < |x| ==> x[k] == s[k - |a| - 1];
    assert forall k :: |b| < k < |y| ==> y[k] == t[k - |b| - 1];
    assert a == x[..|a|] && b == y[..|b|];
  }

  // ---- parsing

  /** An unusable vbucket number is not noticed: its error is overwritten by that of the sequence. */
  function ParsedVbNo(text: string): VbNo {
    match ParseUint(text, MAX_UINT16)
    case Number(n) => n
    case SyntaxError => 0
    case RangeError => MAX_UINT16
  }

  function ParseSequence(text: string): Option<VbSequence> {
    if '.' in text then
      var parts := Split(text, '.');
      if |parts| != 2 then None
      else
        match ParseUint(parts[1], MAX_UINT64)
        case Number(n) => Some(VbSequence(Some(ParsedVbNo(parts[0])), n))
        case _ => None
    else
      match ParseUint(text, MAX_UINT64)
      case Number(n) => if n == 0 then None else Some(Simple(n))
      case _ => None
  }

  function AddItem(set': TimedEntries, item: string): Option<TimedEntries> {
    var components := Split(item, ':');
    if |components| != 2 || components[0] in set' || !IsValidChannel(components[0]) then None
    else
      match ParseSequence(components[1])
      case None => None
      case Some(v) => Some(set'[components[0] := v])
  }

  function ParseItems(items: seq<string>): Option<TimedEntries> {
    if items == [] then Some(map[])
    else
      match ParseItems(items[..|items| - 1])
      case None => None
      case Some(set') => AddItem(set', items[|items| - 1])
  }

  function Parsed(encoded: string): Option<TimedEntries> {
    if encoded == "" then Some(map[]) else ParseItems(Split(encoded, ','))
  }

  lemma {:induction false} FailureStays(items: seq<string>, k: nat)
    requires k <= |items| && ParseItems(items[..k]).None?
    ensures ParseItems(items).None?
  {
    if k < |items| {
      var n := |items| - 1;
      assert items[..n][..k] == items[..k];
      FailureStays(items[..n], k);
    } else {
      assert items[..k] == items;
    }
  }

  method TimedSetFromString(encoded: string) returns (r: Option<TimedEntries>)
    ensures r == Parsed(encoded)
  {
    var items := Split(encoded, ',');
    var set': TimedEntries := map[];
    if encoded != "" {
      var k := 0;
      while k < |items|
        invariant 0 <= k <= |items| && ParseItems(items[..k]) == Some(set')
      {
        assert items[..k + 1][..k] == items[..k];
        var next := ParseItem(set', items[k]);
        if next.None? {
          FailureStays(items, k + 1);
          return None;
        }
        set' := next.value;
        k := k + 1;
      }
      assert items[..k] == items;
    }
    return Some(set');
  }

  method ParseItem(set': TimedEntries, item: string) returns (r: Option<TimedEntries>)
    ensures r == AddItem(set', item)
  {
    var components := Split(item, ':');
    if |components| != 2 {
      return None;
    }
    var channel := components[0];
    if channel in set' {
      return None;
    }
    if !IsValidChannel(channel) {
      return None;
    }
    if '.' in components[1] {
      var seqComponents := Split(components[1], '.');
      if |seqComponents| != 2 {
        return None;
      }
      var vbNo := ParsedVbNo(seqComponents[0]);
      var vbSeq := ParseUint(seqComponents[1], MAX_UINT64);
      if !vbSeq.Number? {
        return None;
      }
      return Some(set'[channel := VbSequence(Some(vbNo), vbSeq.n)]);
    }
    var seqNo := ParseUint(components[1], MAX_UINT64);
    if !seqNo.Number? || seqNo.n == 0 {
      return None;
    }
    return Some(set'[channel := Simple(seqNo.n)]);
  }

  // ---- the round trip

  /** A name that survives: valid and without the colon that separates it from its sequence. */
  predicate Encodable(channel: string) {
    IsValidChannel(channel) && ':' !in channel
  }

  ghost predicate AllEncodable(set': TimedEntries) {
    forall channel :: channel in set' ==> Encodable(channel)
  }

  lemma SequenceRoundTrip(v: VbSequence)
    requires v.sequence > 0
    ensures ParseSequence(SequenceText(v)) == Some(v)
  {
    SequenceTextPlain(v);
    ParseDecimal(v.sequence, MAX_UINT64);
    if v.vbNo.Some? {
      var vb := v.vbNo.value;
      ParseDecimal(vb, MAX_UINT16);
      SplitAtSeparator(Decimal(vb), '.', Decimal(v.sequence));
      SplitWhole(Decimal(v.sequence), '.');
    }
  }

  lemma ItemRoundTrip(set': TimedEntries, channel: string, v: VbSequence)
    requires v.sequence > 0 && Encodable(channel) && channel !in set'
    ensures AddItem(set', Item(channel, v)) == Some(set'[channel := v])
  {
    SequenceTextPlain(v);
    SplitAtSeparator(channel, ':', SequenceText(v));
    SplitWhole(SequenceText(v), ':');
    SequenceRoundTrip(v);
  }

  ghost function Restricted(set': TimedEntries, channels: seq<string>): TimedEntries {
    map channel | channel in set' && channel in channels :: set'[channel]
  }

  lemma {:induction false} ListingParses(items: seq<string>, channels: seq<string>, set': TimedEntries)
    requires IsListing(items, channels, set') && AllEncodable(set')
    requires forall channel :: channel in set' ==> set'[channel].sequence > 0
    ensures ParseItems(items) == Some(Restricted(set', channels))
  {
    if items == [] {
      assert Restricted(set', channels) == map[];
    } else {
      var n := |items| - 1;
      var channel := channels[n];
      ListingShorter(items, channels, set');
      ListingParses(items[..n], channels[..n], set');
      ItemRoundTrip(Restricted(set', channels[..n]), channel, set'[channel]);
    }
  }

  lemma ListingShorter(items: seq<string>, channels: seq<string>, set': TimedEntries)
    requires IsListing(items, channels, set') && items != []
    ensures var n := |items| - 1;
      && IsListing(items[..n], channels[..n], set') && channels[n] !in channels[..n]
      && Restricted(set', channels) == Restricted(set', channels[..n])[channels[n] := set'[channels[n]]]
  {
    var n := |items| - 1;
    RestrictedMore(set', channels[..n], channels[n]);
    assert channels == channels[..n] + [channels[n]];
  }

  lemma RestrictedMore(set': TimedEntries, channels: seq<string>, channel: string)
    requires channel in set'
    ensures Restricted(set', channels + [channel]) == Restricted(set', channels)[channel := set'[channel]]
  {
  }

  /** The channels behind a sorted list of items. */
  lemma {:induction false} ListingOf(items: seq<string>, set': TimedEntries) returns (channels: seq<string>)
    requires Increasing(items) && Elements(items) <= Items(set')
    ensures IsListing(items, channels, set')
    ensures Elements(items) == Items(set') ==> forall channel :: channel in set' ==> channel in channels
  {
    channels := ChannelsOf(items, set');
    assert forall i :: 0 <= i < |channels| ==> IsItem(items[i], channels[i], set');
    forall i, j | 0 <= i < j < |channels|
      ensures channels[i] != channels[j]
    {
      assert Less(items[i], items[j]);
      LessIrreflexive(items[i]);
    }
    if Elements(items) == Items(set') {
      forall channel | channel in set'
        ensures channel in channels
      {
        assert Item(channel, set'[channel]) in Elements(items);
        var i :| 0 <= i < |items| && items[i] == Item(channel, set'[channel]);
        if channels[i] != channel {
          ItemsDiffer(channel, set'[channel], channels[i], set'[channels[i]]);
        }
      }
    }
  }

  ghost predicate IsItem(item: string, channel: string, set': TimedEntries) {
    channel in set' && item == Item(channel, set'[channel])
  }

  ghost function ChannelOf(item: string, set': TimedEntries): (channel: string)
    requires item in Items(set')
    ensures IsItem(item, channel, set')
  {
    var channel :| channel in set' && item == Item(channel, set'[channel]);
    channel
  }

  lemma ChannelsOf(items: seq<string>, set': TimedEntries) returns (channels: seq<string>)
    requires Elements(items) <= Items(set')
    ensures |channels| == |items| && forall i :: 0 <= i < |channels| ==> IsItem(items[i], channels[i], set')
  {
    assert forall i :: 0 <= i < |items| ==> items[i] in Elements(items);
    channels := seq(|items|, i requires 0 <= i < |items| => ChannelOf(items[i], set'));
  }

  lemma {:induction false} JoinNonEmpty(items: seq<string>, sep: char)
    requires items != [] && items[0] != ""
    ensures Join(items, sep) != ""
  {}

  /** Everything printed from encodable names parses back. */
  lemma EncodableParses(text: string, set': TimedEntries)
    requires Prints(text, set') && AllEncodable(Printable(set'))
    ensures Parsed(text) == Some(Printable(set'))
  {
    var items :| IsPrint(items, text, set');
    var printable := Printable(set');
    var channels := ListingOf(items, printable);
    if items == [] {
      assert printable == map[];
    } else {
      forall i | 0 <= i < |items|
        ensures ',' !in items[i] && items[i] != ""
      {
        SequenceTextPlain(printable[channels[i]]);
        assert Encodable(channels[i]);
      }
      JoinNonEmpty(items, ',');
      SplitJoin(items, ',');
      ListingParses(items, channels, printable);
      assert Restricted(printable, channels) == printable;
    }
  }

  /** Only encodable names ever come out of the parser. */
  lemma {:induction false} ParsedEncodable(items: seq<string>)
    ensures ParseItems(items).Some? ==> AllEncodable(ParseItems(items).value)
  {
    if items != [] {
      var n := |items| - 1;
      ParsedEncodable(items[..n]);
      SplitParts(items[n], ':');
    }
  }

  lemma EncodableMeans(set': TimedEntries)
    ensures AllEncodable(Printable(set')) <==>
      forall channel :: channel in set' && set'[channel].sequence > 0 ==>
        channel != "" && ',' !in channel && ':' !in channel
  {
    var printable := Printable(set');
    assert forall channel :: channel in printable <==> channel in set' && set'[channel].sequence > 0;
    assert forall channel :: Encodable(channel) <==> channel != "" && ',' !in channel && ':' !in channel;
  }

  /** The encoding round-trips exactly when every printed name is valid and holds no colon. */
  lemma RoundTripIff(text: string, set': TimedEntries)
    requires Prints(text, set')
    ensures Parsed(text) == Some(Printable(set')) <==> AllEncodable(Printable(set'))
    ensures AllEncodable(Printable(set')) <==>
      forall channel :: channel in set' && set'[channel].sequence > 0 ==>
        channel != "" && ',' !in channel && ':' !in channel
  {
    EncodableMeans(set');
    if AllEncodable(Printable(set')) {
      EncodableParses(text, set');
    }
    if text != "" {
      ParsedEncodable(Split(text, ','));
    }
  }

  /** Whatever a client sent: once parsed, printing and parsing it again gives the same entries, apart from
      vbucket entries at sequence zero, which parse but do not print. */
  lemma ReprintParses(encoded: string, text: string)
    requires Parsed(encoded).Some? && Prints(text, Parsed(encoded).value)
    ensures Parsed(text) == Some(Printable(Parsed(encoded).value))
  {
    if encoded != "" {
      ParsedEncodable(Split(encoded, ','));
    }
    EncodableParses(text, Parsed(encoded).value);
  }

  /** What a text looks like: channels in order, each with its sequence, after the vbucket if it has one. An entry
      without a sequence is left out. */
  lemma PrintedLike()
    ensures var set' := map["b" := VbSequence(Some(2), 30), "c" := Simple(0), "a" := Simple(17)];
      && Prints("a:17,b:2.30", set')
      && Parsed("a:17,b:2.30") == Some(map["a" := Simple(17), "b" := VbSequence(Some(2), 30)])
  {
    var set' := map["b" := VbSequence(Some(2), 30), "c" := Simple(0), "a" := Simple(17)];
    var printable := map["a" := Simple(17), "b" := VbSequence(Some(2), 30)];
    assert Printable(set') == printable;
    ItemsLike();
    TwoPrint(set', "a", "b", "a:17", "b:2.30");
    assert "a:17" + "," + "b:2.30" == "a:17,b:2.30";
    EncodableParses("a:17,b:2.30", set');
  }

  lemma TwoPrint(set': TimedEntries, channel: string, channel': string, item: string, item': string)
    requires Printable(set').Keys == {channel, channel'}
    requires item == Item(channel, Printable(set')[channel]) && item' == Item(channel', Printable(set')[channel'])
    requires item != "" && item' != "" && item[0] < item'[0]
    ensures Prints(item + "," + item', set')
  {
    assert Items(Printable(set')) == {item, item'};
    ListLike(item, item');
    assert IsPrint([item, item'], item + "," + item', set');
  }

  lemma ItemsLike()
    ensures Item("a", Simple(17)) == "a:17"
    ensures Item("b", VbSequence(Some(2), 30)) == "b:2.30"
  {
    assert Decimal(1) == "1" && Decimal(2) == "2" && Decimal(3) == "3";
    assert Decimal(17) == "17" && Decimal(30) == "30";
  }

  lemma ListLike(item: string, item': string)
    requires item != "" && item' != "" && item[0] < item'[0]
    ensures Increasing([item, item']) && Elements([item, item']) == {item, item'}
    ensures Join([item, item'], ',') == item + "," + item'
  {
    assert [item, item'][1..] == [item'];
    assert Join([item'], ',') == item';
  }

  /** A colon in a valid name is enough to lose the whole set. */
  lemma ColonIsLost()
    ensures var set' := map["a:b" := Simple(7)];
      Prints("a:b:7", set') && IsValidChannel("a:b") && Parsed("a:b:7") == None
  {
    var set' := map["a:b" := Simple(7)];
    assert Decimal(7) == "7";
    assert Printable(set') == set';
    OnePrints(set', "a:b", "a:b:7");
    ColonFails();
  }

  lemma OnePrints(set': TimedEntries, channel: string, item: string)
    requires Printable(set').Keys == {channel} && item == Item(channel, Printable(set')[channel])
    ensures Prints(item, set')
  {
    assert Items(Printable(set')) == {item};
    assert IsPrint([item], item, set');
  }

  lemma ColonFails()
    ensures Parsed("a:b:7") == None
  {
    SplitWhole("a:b:7", ',');
    SplitAtSeparator("a", ':', "b:7");
    SplitAtSeparator("b", ':', "7");
    SplitWhole("7", ':');
  }

  // ---- vbucket numbers that are none

  /** The vbucket part of an item, if it has one. */
  function VbNoText(item: string): Option<string> {
    var components := Split(item, ':');
    if |components| == 2 && '.' in components[1] then Some(Split(components[1], '.')[0]) else None
  }

  predicate GoodVbNo(item: string) {
    VbNoText(item).Some? ==> ParseUint(VbNoText(item).value, MAX_UINT16).Number?
  }

  /** The parser that minds the error of the vbucket number. */
  function StrictAddItem(set': TimedEntries, item: string): Option<TimedEntries> {
    if GoodVbNo(item) then AddItem(set', item) else None
  }

  function StrictItems(items: seq<string>): Option<TimedEntries> {
    if items == [] then Some(map[])
    else
      match StrictItems(items[..|items| - 1])
      case None => None
      case Some(set') => StrictAddItem(set', items[|items| - 1])
  }

  function StrictParsed(encoded: string): Option<TimedEntries> {
    if encoded == "" then Some(map[]) else StrictItems(Split(encoded, ','))
  }

  ghost predicate AllGoodVbNos(encoded: string) {
    forall i :: 0 <= i < |Split(encoded, ',')| ==> GoodVbNo(Split(encoded, ',')[i])
  }

  /** The parser is as strict as it should be exactly if it fails or every vbucket text is a 16-bit number. */
  lemma StrictIff(encoded: string)
    ensures StrictParsed(encoded) == Parsed(encoded) <==> Parsed(encoded).None? || AllGoodVbNos(encoded)
  {
    if encoded == "" {
      assert Split("", ':') == [""];
      assert GoodVbNo("");
    } else {
      StrictItemsIff(Split(encoded, ','));
    }
  }

  lemma {:induction false} StrictItemsIff(items: seq<string>)
    ensures ParseItems(items).None? ==> StrictItems(items).None?
    ensures ParseItems(items).Some? ==>
      StrictItems(items) == if forall i :: 0 <= i < |items| ==> GoodVbNo(items[i]) then ParseItems(items) else None
  {
    if items != [] {
      var n := |items| - 1;
      StrictItemsIff(items[..n]);
      assert (forall i :: 0 <= i < |items| ==> GoodVbNo(items[i])) <==>
        (forall i :: 0 <= i < n ==> GoodVbNo(items[..n][i])) && GoodVbNo(items[n]);
    }
  }

  /** What a successful parse makes of each item: its vbucket number if that is one, zero if the text is no number,
      and 65535 if the number is too large. */
  lemma ItemReads(encoded: string, i: nat)
    requires encoded != "" && Parsed(encoded).Some? && i < |Split(encoded, ',')|
    ensures var item := Split(encoded, ',')[i];
            var channel := Split(item, ':')[0];
      && channel in Parsed(encoded).value
      && match VbNoText(item)
         case None => Parsed(encoded).value[channel].vbNo == None
         case Some(text) =>
           match ParseUint(text, MAX_UINT16)
           case Number(n) => Parsed(encoded).value[channel].vbNo == Some(n)
           case SyntaxError => Parsed(encoded).value[channel].vbNo == Some(0)
           case RangeError => Parsed(encoded).value[channel].vbNo == Some(0xFFFF)
  {
    ItemKept(Split(encoded, ','), i);
  }

  lemma {:induction false} ItemKept(items: seq<string>, i: nat)
    requires ParseItems(items).Some? && i < |items|
    ensures var components := Split(items[i], ':');
      && |components| == 2 && ParseSequence(components[1]).Some?
      && components[0] in ParseItems(items).value
      && ParseItems(items).value[components[0]] == ParseSequence(components[1]).value
  {
    var n := |items| - 1;
    if i < n {
      ItemKept(items[..n], i);
    }
  }

  /** A vbucket number that is no number is read as zero. */
  lemma BadVbNoIsZero()
    ensures Parsed("a:x.5") == Some(map["a" := VbSequence(Some(0), 5)])
  {
    BadVbNoItem();
    SplitWhole("a:x.5", ',');
    OneItem("a:x.5");
  }

  lemma OneItem(item: string)
    ensures ParseItems([item]) == AddItem(map[], item)
  {
    assert [item][..0] == [];
  }

  lemma BadVbNoItem()
    ensures AddItem(map[], "a:x.5") == Some(map["a" := VbSequence(Some(0), 5)])
  {
    BadVbNoSequence();
    SplitAtSeparator("a", ':', "x.5");
    SplitWhole("x.5", ':');
  }

  lemma BadVbNoSequence()
    ensures ParseSequence("x.5") == Some(VbSequence(Some(0), 5))
  {
    SplitAtSeparator("x", '.', "5");
    SplitWhole("5", '.');
    assert "x.5"[1] == '.';
    assert Decimal(5) == "5";
    ParseDecimal(5, MAX_UINT64);
    assert "x"[..0] == "";
    assert ParseDigits("x"[..0], MAX_UINT16) == Number(0);
  }
}
