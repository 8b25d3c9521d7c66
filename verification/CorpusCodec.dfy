/** The idealised hash and codec that the corpus theorems assume exist: samples, and the
    payloads their ids digest, can be written as text without loss. */
module CorpusCodec {
  import opened CorpusFiles
  import opened CorpusModel
  import opened CorpusTheorems
  import opened Counting
  import opened Ordering

  // ----- lists of texts as one text -----------------------------------------------------

  /** Each character behind a 1, a 0 at the end. */
  function Framed(s: string): string {
    if s == "" then "0" else ['1', s[0]] + Framed(s[1..])
  }

  function Joined(texts: seq<string>): string {
    if texts == [] then "0" else "1" + Framed(texts[0]) + Joined(texts[1..])
  }

  lemma {:induction false} FramedSplits(a: string, x: string, b: string, y: string)
    requires Framed(a) + x == Framed(b) + y
    ensures a == b && x == y
  {
    var t, u := Framed(a) + x, Framed(b) + y;
    if a == "" || b == "" {
      assert t[0] == Framed(a)[0] && u[0] == Framed(b)[0];
      assert t[1..] == x && u[1..] == y;
    } else {
      assert t[1] == a[0] && u[1] == b[0];
      assert t[2..] == Framed(a[1..]) + x && u[2..] == Framed(b[1..]) + y;
      FramedSplits(a[1..], x, b[1..], y);
      assert a == [a[0]] + a[1..] && b == [b[0]] + b[1..];
    }
  }

  lemma {:induction false} JoinedSplits(a: seq<string>, b: seq<string>)
    requires Joined(a) == Joined(b)
    ensures a == b
  {
    assert Joined(a)[0] == (if a == [] then '0' else '1') && Joined(b)[0] == (if b == [] then '0' else '1');
    if a != [] && b != [] {
      assert Joined(a)[1..] == Framed(a[0]) + Joined(a[1..]);
      assert Joined(b)[1..] == Framed(b[0]) + Joined(b[1..]);
      FramedSplits(a[0], Joined(a[1..]), b[0], Joined(b[1..]));
      JoinedSplits(a[1..], b[1..]);
      assert a == [a[0]] + a[1..] && b == [b[0]] + b[1..];
    }
  }

  function Texts<T>(items: seq<T>, text: T -> string): (r: seq<string>)
    ensures |r| == |items| && forall i :: 0 <= i < |r| ==> r[i] == text(items[i])
  {
    if items == [] then [] else [text(items[0])] + Texts(items[1..], text)
  }

  lemma TextsAreInjective<T(!new)>(a: seq<T>, b: seq<T>, text: T -> string)
    requires Texts(a, text) == Texts(b, text) && forall x, y :: text(x) == text(y) ==> x == y
    ensures a == b
  {
    forall i | 0 <= i < |a| ensures |a| == |b| && a[i] == b[i] {
      assert Texts(a, text)[i] == Texts(b, text)[i];
    }
  }

  // ----- what texts are made of ---------------------------------------------------------

  function NatText(n: nat): (r: string)
    ensures |r| == n
  {
    seq(n, _ => '1')
  }

  function BoolText(b: bool): string {
    if b then "1" else "0"
  }

  function OptionText(o: Option<string>): string {
    if o.None? then "" else "1" + o.value
  }

  lemma OptionTextIsInjective(a: Option<string>, b: Option<string>)
    requires OptionText(a) == OptionText(b)
    ensures a == b
  {
    if a.Some? && b.Some? {
      assert a.value == OptionText(a)[1..];
    }
  }

  /** Any way of listing a bag will do. */
  ghost function Listing(bag: multiset<string>): (r: seq<string>)
    ensures multiset(r) == bag
  {
    if bag == multiset{} then []
    else
      var x :| x in bag;
      Listing(bag - multiset{x}) + [x]
  }

  ghost function BagText(bag: multiset<string>): string {
    Joined(Listing(bag))
  }

  lemma BagTextIsInjective(a: multiset<string>, b: multiset<string>)
    requires BagText(a) == BagText(b)
    ensures a == b
  {
    JoinedSplits(Listing(a), Listing(b));
  }

  lemma SetTextIsInjective(a: set<string>, b: set<string>)
    requires BagText(multiset(a)) == BagText(multiset(b))
    ensures a == b
  {
    BagTextIsInjective(multiset(a), multiset(b));
    assert forall x :: x in a <==> x in multiset(a);
    assert forall x :: x in b <==> x in multiset(b);
  }

  function RoleText(role: Role): string {
    match role
    case MacroRole => "0"
    case TacticalRole => "1"
    case ReflexRole => "2"
  }

  function StatusText(status: Status): string {
    match status
    case Succeeded => "0"
    case Failed => "1"
    case Cancelled => "2"
    case Unconfirmed => "3"
  }

  // ----- samples ------------------------------------------------------------------------

  function EconomyText(e: Economy): string {
    Joined([NatText(e.minerals), NatText(e.vespene), NatText(e.supplyUsed), NatText(e.supplyCap), NatText(e.workers),
            NatText(e.armySupply)])
  }

  lemma EconomyTextIsInjective(a: Economy, b: Economy)
    requires EconomyText(a) == EconomyText(b)
    ensures a == b
  {
    JoinedSplits([NatText(a.minerals), NatText(a.vespene), NatText(a.supplyUsed), NatText(a.supplyCap),
                  NatText(a.workers),
                  NatText(a.armySupply)],
                 [NatText(b.minerals), NatText(b.vespene), NatText(b.supplyUsed), NatText(b.supplyCap),
                  NatText(b.workers),
                  NatText(b.armySupply)]);
  }

  ghost function CompactFields(c: Compact): seq<string> {
    [NatText(c.gameLoop), EconomyText(c.economy), BagText(c.own), BagText(c.structures), BagText(c.enemies),
     BagText(c.production), BagText(multiset(c.upgrades)), BagText(multiset(c.actions)), NatText(c.alerts)]
  }

  lemma CompactFieldsAreInjective(a: Compact, b: Compact)
    requires Joined(CompactFields(a)) == Joined(CompactFields(b))
    ensures a == b
  {
    JoinedSplits(CompactFields(a), CompactFields(b));
    var f, g := CompactFields(a), CompactFields(b);
    assert f[0] == g[0] && f[1] == g[1] && f[2] == g[2] && f[3] == g[3] && f[4] == g[4];
    assert f[5] == g[5] && f[6] == g[6] && f[7] == g[7] && f[8] == g[8];
    EconomyTextIsInjective(a.economy, b.economy);
    BagTextIsInjective(a.own, b.own);
    BagTextIsInjective(a.structures, b.structures);
    BagTextIsInjective(a.enemies, b.enemies);
    BagTextIsInjective(a.production, b.production);
    SetTextIsInjective(a.upgrades, b.upgrades);
    SetTextIsInjective(a.actions, b.actions);
  }

  function CandidateFields(c: CandidateSample): seq<string> {
    [c.id, c.action, NatText(c.features.actionRank), NatText(c.features.actorRank), NatText(c.features.argumentRank),
     NatText(c.features.ordinal), BoolText(c.features.advances), c.features.score]
  }

  lemma CandidateFieldsAreInjective(a: CandidateSample, b: CandidateSample)
    requires Joined(CandidateFields(a)) == Joined(CandidateFields(b))
    ensures a == b
  {
    JoinedSplits(CandidateFields(a), CandidateFields(b));
    var f, g := CandidateFields(a), CandidateFields(b);
    assert f[0] == g[0] && f[1] == g[1] && f[2] == g[2] && f[3] == g[3];
    assert f[4] == g[4] && f[5] == g[5] && f[6] == g[6] && f[7] == g[7];
  }

  function CandidateText(): CandidateSample -> string {
    (c: CandidateSample) => Joined(CandidateFields(c))
  }

  lemma CandidateTextsAreInjective(a: seq<CandidateSample>, b: seq<CandidateSample>)
    requires Texts(a, CandidateText()) == Texts(b, CandidateText())
    ensures a == b
  {
    forall x, y | CandidateText()(x) == CandidateText()(y) ensures x == y {
      CandidateFieldsAreInjective(x, y);
    }
    TextsAreInjective(a, b, CandidateText());
  }

  function LabelFields(l: Label): seq<string> {
    [l.id, BoolText(l.selected), OptionText(l.candidate), OptionText(l.reason), l.executor, l.version, l.latency]
  }

  lemma LabelFieldsAreInjective(a: Label, b: Label)
    requires Joined(LabelFields(a)) == Joined(LabelFields(b))
    ensures a == b
  {
    JoinedSplits(LabelFields(a), LabelFields(b));
    var f, g := LabelFields(a), LabelFields(b);
    assert f[0] == g[0] && f[1] == g[1] && f[2] == g[2] && f[3] == g[3] && f[4] == g[4] && f[5] == g[5] && f[6] == g[6];
    OptionTextIsInjective(a.candidate, b.candidate);
    OptionTextIsInjective(a.reason, b.reason);
  }

  function OutcomeFields(o: Option<Outcome>): seq<string> {
    if o.None? then []
    else [StatusText(o.value.status), OptionText(o.value.stage), OptionText(o.value.code), OptionText(o.value.action)]
  }

  lemma OutcomeFieldsAreInjective(a: Option<Outcome>, b: Option<Outcome>)
    requires Joined(OutcomeFields(a)) == Joined(OutcomeFields(b))
    ensures a == b
  {
    JoinedSplits(OutcomeFields(a), OutcomeFields(b));
    if a.Some? && b.Some? {
      var f, g := OutcomeFields(a), OutcomeFields(b);
      assert f[0] == g[0] && f[1] == g[1] && f[2] == g[2] && f[3] == g[3];
      OptionTextIsInjective(a.value.stage, b.value.stage);
      OptionTextIsInjective(a.value.code, b.value.code);
      OptionTextIsInjective(a.value.action, b.value.action);
    }
  }

  ghost function PlaceFields(s: Sample): seq<string> {
    [s.id, SplitName(s.split), s.run, s.episode, NatText(s.step), NatText(s.gameLoop), s.observation, s.semantic,
     Joined(CompactFields(s.features)), s.intent]
  }

  function DecisionFields(s: Sample): seq<string> {
    [Joined(s.names), RoleText(s.role), s.source, s.version, BoolText(s.hasPlan), BoolText(s.hasSituation),
     Joined(Texts(s.candidates, CandidateText())), Joined(LabelFields(s.choice)), OptionText(s.command),
     Joined(OutcomeFields(s.outcome))]
  }

  lemma PlaceFieldsAreInjective(a: Sample, b: Sample)
    requires Joined(PlaceFields(a)) == Joined(PlaceFields(b))
    ensures a.id == b.id && a.split == b.split && a.run == b.run && a.episode == b.episode && a.step == b.step
    ensures a.gameLoop == b.gameLoop && a.observation == b.observation && a.semantic == b.semantic
    ensures a.features == b.features && a.intent == b.intent
  {
    JoinedSplits(PlaceFields(a), PlaceFields(b));
    var f, g := PlaceFields(a), PlaceFields(b);
    assert f[0] == g[0] && f[1] == g[1] && f[2] == g[2] && f[3] == g[3] && f[4] == g[4];
    assert f[5] == g[5] && f[6] == g[6] && f[7] == g[7] && f[8] == g[8] && f[9] == g[9];
    CompactFieldsAreInjective(a.features, b.features);
  }

  lemma DecisionFieldsAreInjective(a: Sample, b: Sample)
    requires Joined(DecisionFields(a)) == Joined(DecisionFields(b))
    ensures a.names == b.names && a.role == b.role && a.source == b.source && a.version == b.version
    ensures a.hasPlan == b.hasPlan && a.hasSituation == b.hasSituation && a.candidates == b.candidates
    ensures a.choice == b.choice && a.command == b.command && a.outcome == b.outcome
  {
    JoinedSplits(DecisionFields(a), DecisionFields(b));
    var f, g := DecisionFields(a), DecisionFields(b);
    assert f[0] == g[0] && f[1] == g[1] && f[2] == g[2] && f[3] == g[3] && f[4] == g[4];
    assert f[5] == g[5] && f[6] == g[6] && f[7] == g[7] && f[8] == g[8] && f[9] == g[9];
    JoinedSplits(a.names, b.names);
    JoinedSplits(Texts(a.candidates, CandidateText()), Texts(b.candidates, CandidateText()));
    CandidateTextsAreInjective(a.candidates, b.candidates);
    LabelFieldsAreInjective(a.choice, b.choice);
    OptionTextIsInjective(a.command, b.command);
    OutcomeFieldsAreInjective(a.outcome, b.outcome);
  }

  ghost function SampleFields(s: Sample): seq<string> {
    [Joined(PlaceFields(s)), Joined(DecisionFields(s))]
  }

  lemma SampleFieldsAreInjective(a: Sample, b: Sample)
    requires Joined(SampleFields(a)) == Joined(SampleFields(b))
    ensures a == b
  {
    JoinedSplits(SampleFields(a), SampleFields(b));
    assert SampleFields(a)[0] == SampleFields(b)[0] && SampleFields(a)[1] == SampleFields(b)[1];
    PlaceFieldsAreInjective(a, b);
    DecisionFieldsAreInjective(a, b);
  }

  ghost function TextOf(): Sample -> string {
    (s: Sample) => Joined(SampleFields(s))
  }

  lemma SampleTextsAreInjective(a: seq<Sample>, b: seq<Sample>)
    requires Texts(a, TextOf()) == Texts(b, TextOf())
    ensures a == b
  {
    forall x, y | TextOf()(x) == TextOf()(y) ensures x == y {
      SampleFieldsAreInjective(x, y);
    }
    TextsAreInjective(a, b, TextOf());
  }

  // ----- the two premises ---------------------------------------------------------------

  ghost function Encoded(samples: seq<Sample>): string {
    Joined(Texts(samples, TextOf()))
  }

  ghost function DecodedFrom(text: string): Option<seq<Sample>> {
    if exists samples :: Encoded(samples) == text then
      var samples :| Encoded(samples) == text;
      Some(samples)
    else None
  }

  function PayloadFields(p: SamplePayload): seq<string> {
    [p.run, p.episode, NatText(p.step), p.observation, p.intent, Joined(p.names), p.selection, Joined(p.candidates),
     OptionText(p.selected), OptionText(p.selectedAction)]
  }

  lemma PayloadFieldsAreInjective(a: SamplePayload, b: SamplePayload)
    requires Joined(PayloadFields(a)) == Joined(PayloadFields(b))
    ensures a == b
  {
    JoinedSplits(PayloadFields(a), PayloadFields(b));
    var f, g := PayloadFields(a), PayloadFields(b);
    assert f[0] == g[0] && f[1] == g[1] && f[2] == g[2] && f[3] == g[3] && f[4] == g[4];
    assert f[5] == g[5] && f[6] == g[6] && f[7] == g[7] && f[8] == g[8] && f[9] == g[9];
    JoinedSplits(a.names, b.names);
    JoinedSplits(a.candidates, b.candidates);
    OptionTextIsInjective(a.selected, b.selected);
    OptionTextIsInjective(a.selectedAction, b.selectedAction);
  }

  /** Whatever the file hash and the other digests are, some codec reads back what it wrote
      and some sample-id digest tells payloads apart. */
  lemma PremisesHold(w: World, sha: string -> string) returns (codec: Codec, v: World)
    ensures codec.sha == sha && Faithful(codec)
    ensures v == w.(sample := v.sample) && InjectiveIds(v)
  {
    codec := Codec(s => Encoded(s), t => DecodedFrom(t), sha);
    forall s ensures codec.decode(codec.encode(s)) == Some(s) {
      var r := DecodedFrom(Encoded(s)).value;
      JoinedSplits(Texts(r, TextOf()), Texts(s, TextOf()));
      SampleTextsAreInjective(r, s);
    }
    v := w.(sample := p => Joined(PayloadFields(p)));
    forall p, q | v.sample(p) == v.sample(q) ensures p == q {
      PayloadFieldsAreInjective(p, q);
    }
  }
}
