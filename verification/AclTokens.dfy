/**
 Reading the words of an ASA access-list entry (apps/api/app/firewall/asa.py,
 `_rules_from_tokens`), and the words that are never read.

 The reader looks one or two words ahead and stops after the destination's ports.
 What addresses and port names mean is a parameter.
 */
module AclTokens {
  import opened Wrappers
  import opened Sequences
  import opened AclPolicy
  import opened ObjectGroup
  import opened AclExpansion

  /** Port numbers and aliases, addresses with or without a mask, and what looks like a dotted mask. */
  datatype Lexicon = Lexicon(port: string -> Option<int>, spec: string -> Spec, dotted: string -> bool)

  datatype ProtocolWords = NoProtocol | ProtocolWord(word: string) | ProtocolRef(keyword: string, name: string)

  datatype EndpointWords =
    | AnyWord(word: string)
    | HostWords(address: string)
    | MaskedWords(address: string, mask: string)
    | BareWord(word: string)
    | EndpointRef(keyword: string, name: string)
    | InterfaceWord

  datatype PortWords =
    | NoWords
    | EqWords(port: string)
    | RangeWords(low: string, high: string)
    | PortRef(keyword: string, name: string)

  datatype Sentence = Sentence(action: string, protocol: ProtocolWords, src: EndpointWords, srcPorts: PortWords,
                               dst: EndpointWords, dstPorts: PortWords)

  type Words = seq<string>

  predicate IsAction(word: string) {
    word == "permit" || word == "deny"
  }

  predicate IsProtocol(word: string) {
    word == "tcp" || word == "udp" || word == "ip" || word == "icmp"
  }

  predicate IsRef(word: string) {
    word == "object-group" || word == "object"
  }

  predicate IsAny(word: string) {
    word == "any" || word == "any4"
  }

  // ---------------------------------------------------------------------
  // The reader
  // ---------------------------------------------------------------------

  function TakeProtocol(g: Registries, words: Words): Option<(ProtocolWords, Words)> {
    if words == [] then None
    else if IsProtocol(words[0]) then Some((ProtocolWord(words[0]), words[1..]))
    else if IsRef(words[0]) && |words| > 1 then
      if CarriesService(g, words[1]) then Some((ProtocolRef(words[0], words[1]), words[2..])) else None
    else Some((NoProtocol, words))
  }

  /** Running out of words is the IndexError the source turns into "no rule". */
  function TakeEndpoint(lex: Lexicon, words: Words): Option<(EndpointWords, Words)> {
    if words == [] then None
    else if IsRef(words[0]) then
      if |words| > 1 then Some((EndpointRef(words[0], words[1]), words[2..])) else None
    else if words[0] == "interface" then Some((InterfaceWord, words[1..]))
    else if words[0] == "host" && |words| > 1 then Some((HostWords(words[1]), words[2..]))
    else if IsAny(words[0]) then Some((AnyWord(words[0]), words[1..]))
    else if |words| > 1 && lex.dotted(words[1]) then Some((MaskedWords(words[0], words[1]), words[2..]))
    else Some((BareWord(words[0]), words[1..]))
  }

  /** A reference to anything but a service or protocol group belongs to the next endpoint. */
  function TakePorts(g: Registries, words: Words): (PortWords, Words) {
    if |words| > 1 && words[0] == "eq" then (EqWords(words[1]), words[2..])
    else if |words| > 2 && words[0] == "range" then (RangeWords(words[1], words[2]), words[3..])
    else if |words| > 1 && IsRef(words[0]) && CarriesService(g, words[1]) then (PortRef(words[0], words[1]), words[2..])
    else (NoWords, words)
  }

  /** The sentence after the action word, and the words left unread. */
  function TakeRest(g: Registries, lex: Lexicon, action: string, words: Words): Option<(Sentence, Words)> {
    var protocol := TakeProtocol(g, words);
    if protocol.None? then None
    else
      var src := TakeEndpoint(lex, protocol.value.1);
      if src.None? then None
      else
        var (srcPorts, afterSrc) := TakePorts(g, src.value.1);
        var dst := TakeEndpoint(lex, afterSrc);
        if dst.None? then None
        else
          var (dstPorts, left) := TakePorts(g, dst.value.1);
          Some((Sentence(action, protocol.value.0, src.value.0, srcPorts, dst.value.0, dstPorts), left))
  }

  /** Whatever comes before the first action word is passed over. */
  function Recognise(g: Registries, lex: Lexicon, words: Words): Option<(Sentence, Words)> {
    if words == [] then None
    else if IsAction(words[0]) then TakeRest(g, lex, words[0], words[1..])
    else Recognise(g, lex, words[1..])
  }

  // ---------------------------------------------------------------------
  // From the words to the parts of an entry
  // ---------------------------------------------------------------------

  function EndpointOf(lex: Lexicon, e: EndpointWords): EndpointPart {
    match e
    case AnyWord(_) => Literal(AnyHost)
    case HostWords(address) => Literal(lex.spec(address))
    case MaskedWords(address, mask) => Literal(lex.spec(address + "/" + mask))
    case BareWord(word) => Literal(lex.spec(word))
    case EndpointRef(keyword, name) => if keyword == "object-group" then NetworkGroup(name) else NetworkObject(name)
    case InterfaceWord => Interface
  }

  function PortsOf(lex: Lexicon, p: PortWords): PortPart {
    match p
    case NoWords => NoPorts
    case EqWords(port) => Eq(lex.port(port))
    case RangeWords(low, high) => Range(lex.port(low), lex.port(high))
    case PortRef(keyword, name) => if keyword == "object-group" then PortGroup(name) else PortObject(name)
  }

  function ProtocolOf(p: ProtocolWords): ProtocolPart {
    match p
    case NoProtocol => Unstated
    case ProtocolWord(word) => Named(word)
    case ProtocolRef(keyword, name) => if keyword == "object-group" then ProtocolGroup(name) else ProtocolObject(name)
  }

  function PartsOf(lex: Lexicon, s: Sentence): Parts {
    Parts(if s.action == "permit" then Permit else Deny, ProtocolOf(s.protocol),
          EndpointOf(lex, s.src), PortsOf(lex, s.srcPorts), EndpointOf(lex, s.dst), PortsOf(lex, s.dstPorts))
  }

  datatype Line = Line(acl: string, line: int, expanded: bool, words: Words)

  function EntryOf(g: Registries, lex: Lexicon, l: Line): EntryLine {
    var read := Recognise(g, lex, l.words);
    EntryLine(l.acl, l.line, l.expanded, if read.Some? then Some(PartsOf(lex, read.value.0)) else None)
  }

  // ---------------------------------------------------------------------
  // The sentences of the language
  // ---------------------------------------------------------------------

  function SpeltProtocol(p: ProtocolWords): Words {
    match p
    case NoProtocol => []
    case ProtocolWord(word) => [word]
    case ProtocolRef(keyword, name) => [keyword, name]
  }

  function SpeltEndpoint(e: EndpointWords): (words: Words)
    ensures words != []
  {
    match e
    case AnyWord(word) => [word]
    case HostWords(address) => ["host", address]
    case MaskedWords(address, mask) => [address, mask]
    case BareWord(word) => [word]
    case EndpointRef(keyword, name) => [keyword, name]
    case InterfaceWord => ["interface"]
  }

  function SpeltPorts(p: PortWords): Words {
    match p
    case NoWords => []
    case EqWords(port) => ["eq", port]
    case RangeWords(low, high) => ["range", low, high]
    case PortRef(keyword, name) => [keyword, name]
  }

  function SpeltFromDestination(s: Sentence, rest: Words): Words {
    SpeltEndpoint(s.dst) + (SpeltPorts(s.dstPorts) + rest)
  }

  function SpeltFromSource(s: Sentence, rest: Words): Words {
    SpeltEndpoint(s.src) + (SpeltPorts(s.srcPorts) + SpeltFromDestination(s, rest))
  }

  function Spelt(s: Sentence, rest: Words): Words {
    [s.action] + (SpeltProtocol(s.protocol) + SpeltFromSource(s, rest))
  }

  /** These words read as ports. */
  predicate StartsPorts(g: Registries, words: Words) {
    && |words| > 1
    && (words[0] == "eq" || (words[0] == "range" && |words| > 2) || (IsRef(words[0]) && CarriesService(g, words[1])))
  }

  const PROTOCOLS: set<string> := {"icmp", "ip", "tcp", "udp"}

  predicate ProtocolReads(g: Registries, p: ProtocolWords, next: Words) {
    match p
    case NoProtocol => next != [] && next[0] !in PROTOCOLS && !(IsRef(next[0]) && |next| > 1)
    case ProtocolWord(word) => word in PROTOCOLS
    case ProtocolRef(keyword, name) => IsRef(keyword) && CarriesService(g, name)
  }

  predicate IsPlainWord(word: string) {
    !IsRef(word) && word != "interface" && !IsAny(word)
  }

  predicate EndpointReads(lex: Lexicon, e: EndpointWords, next: Words) {
    match e
    case AnyWord(word) => word in {"any", "any4"}
    case HostWords(_) => true
    case MaskedWords(address, mask) => IsPlainWord(address) && address != "host" && lex.dotted(mask)
    case BareWord(word) =>
      IsPlainWord(word) && (next != [] ==> word != "host" && !lex.dotted(next[0]))
    case EndpointRef(keyword, _) => IsRef(keyword)
    case InterfaceWord => true
  }

  predicate PortsRead(g: Registries, p: PortWords, next: Words) {
    match p
    case NoWords => !StartsPorts(g, next)
    case EqWords(_) => true
    case RangeWords(_, _) => true
    case PortRef(keyword, name) => IsRef(keyword) && CarriesService(g, name)
  }

  /** The sentence is well formed, and no clause of it is carried on by what follows. */
  predicate Reads(g: Registries, lex: Lexicon, s: Sentence, rest: Words) {
    && IsAction(s.action)
    && ProtocolReads(g, s.protocol, SpeltFromSource(s, rest))
    && EndpointReads(lex, s.src, SpeltPorts(s.srcPorts) + SpeltFromDestination(s, rest))
    && PortsRead(g, s.srcPorts, SpeltFromDestination(s, rest))
    && EndpointReads(lex, s.dst, SpeltPorts(s.dstPorts) + rest)
    && PortsRead(g, s.dstPorts, rest)
  }

  lemma ProtocolIsSpelt(g: Registries, words: Words, p: ProtocolWords, next: Words)
    ensures TakeProtocol(g, words) == Some((p, next)) <==> words == SpeltProtocol(p) + next && ProtocolReads(g, p, next)
  {
    assert [] + next == next;
  }

  lemma EndpointIsSpelt(lex: Lexicon, words: Words, e: EndpointWords, next: Words)
    ensures TakeEndpoint(lex, words) == Some((e, next)) <==>
            words == SpeltEndpoint(e) + next && EndpointReads(lex, e, next)
  {
  }

  lemma PortsAreSpelt(g: Registries, words: Words, p: PortWords, next: Words)
    ensures TakePorts(g, words) == (p, next) <==> words == SpeltPorts(p) + next && PortsRead(g, p, next)
  {
    assert [] + next == next;
  }

  /** Reading is the inverse of spelling, on the words after the action. */
  lemma RestIsSpelt(g: Registries, lex: Lexicon, words: Words, s: Sentence, rest: Words)
    requires IsAction(s.action)
    ensures TakeRest(g, lex, s.action, words) == Some((s, rest)) <==>
              words == SpeltProtocol(s.protocol) + SpeltFromSource(s, rest) && Reads(g, lex, s, rest)
  {
    var fromSource, fromDestination := SpeltFromSource(s, rest), SpeltFromDestination(s, rest);
    var afterSource, afterDestination := SpeltPorts(s.srcPorts) + fromDestination, SpeltPorts(s.dstPorts) + rest;
    ProtocolIsSpelt(g, words, s.protocol, fromSource);
    EndpointIsSpelt(lex, fromSource, s.src, afterSource);
    PortsAreSpelt(g, afterSource, s.srcPorts, fromDestination);
    EndpointIsSpelt(lex, fromDestination, s.dst, afterDestination);
    PortsAreSpelt(g, afterDestination, s.dstPorts, rest);
    if TakeRest(g, lex, s.action, words) == Some((s, rest)) {
      var next := TakeProtocol(g, words).value.1;
      ProtocolIsSpelt(g, words, s.protocol, next);
      EndpointIsSpelt(lex, next, s.src, TakeEndpoint(lex, next).value.1);
      var ports := TakeEndpoint(lex, next).value.1;
      PortsAreSpelt(g, ports, s.srcPorts, TakePorts(g, ports).1);
      var dst := TakePorts(g, ports).1;
      EndpointIsSpelt(lex, dst, s.dst, TakeEndpoint(lex, dst).value.1);
      PortsAreSpelt(g, TakeEndpoint(lex, dst).value.1, s.dstPorts, rest);
    }
    hide TakeProtocol, TakeEndpoint, TakePorts, SpeltProtocol, SpeltEndpoint, SpeltPorts, ProtocolReads, EndpointReads,
         PortsRead;
  }

  ghost predicate NoActionIn(words: Words) {
    forall i | 0 <= i < |words| :: !IsAction(words[i])
  }

  /** A passed-over preamble, the sentence, and the rest. */
  ghost predicate Spells(words: Words, preamble: Words, s: Sentence, rest: Words) {
    NoActionIn(preamble) && words == preamble + Spelt(s, rest)
  }

  /**
   The reader accepts exactly the words that spell a sentence after a preamble, with
   the sentence and the unread words as its only result; reading undoes spelling.
   */
  lemma {:induction false} ReadingIsSpelling(g: Registries, lex: Lexicon, words: Words, s: Sentence, rest: Words)
    ensures Recognise(g, lex, words) == Some((s, rest)) <==>
              Reads(g, lex, s, rest) && exists preamble :: Spells(words, preamble, s, rest)
  {
    hide TakeRest, Reads, SpeltProtocol, SpeltFromSource;
    if words == [] {
      forall preamble ensures !Spells(words, preamble, s, rest) {
      }
    } else if IsAction(words[0]) {
      ActionOpens(words, s, rest);
      ReadsNamesAction(g, lex, words, s, rest);
      if s.action == words[0] {
        RestIsSpelt(g, lex, words[1..], s, rest);
      }
    } else {
      ReadingIsSpelling(g, lex, words[1..], s, rest);
      ReadsNamesAction(g, lex, words, s, rest);
      PreambleGrows(words, s, rest);
    }
  }

  lemma ReadsNamesAction(g: Registries, lex: Lexicon, words: Words, s: Sentence, rest: Words)
    ensures Reads(g, lex, s, rest) ==> IsAction(s.action)
    ensures words != [] && TakeRest(g, lex, words[0], words[1..]) == Some((s, rest)) ==> s.action == words[0]
  {
  }

  lemma PreambleComesFirst(preamble: Words, tail: Words)
    requires NoActionIn(preamble) && preamble != []
    ensures !IsAction((preamble + tail)[0])
  {
    assert (preamble + tail)[0] == preamble[0];
  }

  lemma ActionOpens(words: Words, s: Sentence, rest: Words)
    requires words != [] && IsAction(words[0])
    ensures (exists preamble :: Spells(words, preamble, s, rest)) <==>
              words[0] == s.action && words[1..] == SpeltProtocol(s.protocol) + SpeltFromSource(s, rest)
  {
    hide SpeltProtocol, SpeltFromSource;
    if preamble :| Spells(words, preamble, s, rest) {
      if preamble != [] {
        PreambleComesFirst(preamble, Spelt(s, rest));
      }
    }
    if words[0] == s.action && words[1..] == SpeltProtocol(s.protocol) + SpeltFromSource(s, rest) {
      assert words == [words[0]] + words[1..];
      assert Spells(words, [], s, rest);
    }
  }

  lemma PreambleGrows(words: Words, s: Sentence, rest: Words)
    requires words != [] && !IsAction(words[0])
    ensures IsAction(s.action) ==>
              ((exists preamble :: Spells(words, preamble, s, rest)) <==>
               exists preamble :: Spells(words[1..], preamble, s, rest))
  {
    hide SpeltProtocol, SpeltFromSource;
    if preamble :| IsAction(s.action) && Spells(words, preamble, s, rest) {
      assert Spelt(s, rest)[0] == s.action;
      assert preamble != [];
      assert preamble[1..] + Spelt(s, rest) == words[1..];
      assert Spells(words[1..], preamble[1..], s, rest);
    }
    if preamble :| Spells(words[1..], preamble, s, rest) {
      var longer := [words[0]] + preamble;
      assert longer + Spelt(s, rest) == words;
      assert Spells(words, longer, s, rest);
    }
  }

  // ---------------------------------------------------------------------
  // What the words say
  // ---------------------------------------------------------------------

  /** A keyword and its operand, an address with a mask, or a single word. */
  ghost predicate EndpointSays(lex: Lexicon, words: Words, part: EndpointPart) {
    if |words| == 2 && words[0] == "object-group" then part == NetworkGroup(words[1])
    else if |words| == 2 && words[0] == "object" then part == NetworkObject(words[1])
    else if |words| == 2 && words[0] == "host" then part == Literal(lex.spec(words[1]))
    else if |words| == 2 then part == Literal(lex.spec(words[0] + "/" + words[1]))
    else if words == ["any"] || words == ["any4"] then part == Literal(AnyHost)
    else if words == ["interface"] then part == Interface
    else |words| == 1 && part == Literal(lex.spec(words[0]))
  }

  ghost predicate PortsSay(lex: Lexicon, words: Words, part: PortPart) {
    if words == [] then part == NoPorts
    else if words[0] == "eq" then |words| == 2 && part == Eq(lex.port(words[1]))
    else if words[0] == "range" then |words| == 3 && part == Range(lex.port(words[1]), lex.port(words[2]))
    else |words| == 2 && part == if words[0] == "object-group" then PortGroup(words[1]) else PortObject(words[1])
  }

  ghost predicate ProtocolSays(words: Words, part: ProtocolPart) {
    if words == [] then part == Unstated
    else if |words| == 1 then part == Named(words[0])
    else |words| == 2 && part == if words[0] == "object-group" then ProtocolGroup(words[1])
        else ProtocolObject(words[1])
  }

  /**
   A line is read as the parts its words spell out, in the order action, protocol, source,
   source ports, destination, destination ports, and keeps its list, its line and who
   expanded it; a line that cannot be read has no parts.
   */
  lemma LineSaysItsParts(g: Registries, lex: Lexicon, l: Line)
    ensures var e, read := EntryOf(g, lex, l), Recognise(g, lex, l.words);
            && e.acl == l.acl && e.line == l.line && e.expanded == l.expanded
            && (e.parts.Some? <==> read.Some?)
            && (read.Some? ==>
                  var s, parts := read.value.0, e.parts.value;
                  && parts.action == (if s.action == "permit" then Permit else Deny)
                  && ProtocolSays(SpeltProtocol(s.protocol), parts.protocol)
                  && EndpointSays(lex, SpeltEndpoint(s.src), parts.src)
                  && PortsSay(lex, SpeltPorts(s.srcPorts), parts.srcPorts)
                  && EndpointSays(lex, SpeltEndpoint(s.dst), parts.dst)
                  && PortsSay(lex, SpeltPorts(s.dstPorts), parts.dstPorts))
  {
    var read := Recognise(g, lex, l.words);
    if read.Some? {
      var (s, rest) := read.value;
      ReadingIsSpelling(g, lex, l.words, s, rest);
      EndpointIsSaid(lex, s.src, SpeltPorts(s.srcPorts) + SpeltFromDestination(s, rest));
      EndpointIsSaid(lex, s.dst, SpeltPorts(s.dstPorts) + rest);
      PortsAreSaid(g, lex, s.srcPorts, SpeltFromDestination(s, rest));
      PortsAreSaid(g, lex, s.dstPorts, rest);
      hide Recognise, EndpointSays, PortsSay, EndpointOf, PortsOf, SpeltEndpoint, SpeltPorts, EndpointReads, PortsRead,
           Spelt;
    }
  }

  lemma EndpointIsSaid(lex: Lexicon, e: EndpointWords, next: Words)
    requires EndpointReads(lex, e, next)
    ensures EndpointSays(lex, SpeltEndpoint(e), EndpointOf(lex, e))
  {
  }

  lemma PortsAreSaid(g: Registries, lex: Lexicon, p: PortWords, next: Words)
    requires PortsRead(g, p, next)
    ensures PortsSay(lex, SpeltPorts(p), PortsOf(lex, p))
  {
  }

  // ---------------------------------------------------------------------
  // Words that are never read
  // ---------------------------------------------------------------------

  /** The tail carries on a clause the sentence had left open. */
  predicate CarriesOn(g: Registries, lex: Lexicon, s: Sentence, tail: Words) {
    || (s.srcPorts == NoWords && StartsPorts(g, SpeltFromDestination(s, tail)))
    || (s.dstPorts == NoWords && tail != [] &&
        (StartsPorts(g, tail) || (s.dst.BareWord? && (s.dst.word == "host" || lex.dotted(tail[0])))))
  }

  /** Words after a complete sentence stay unread exactly when they carry none of its clauses on. */
  lemma TailIsUnreadExactlyWhen(g: Registries, lex: Lexicon, preamble: Words, s: Sentence, tail: Words)
    requires NoActionIn(preamble) && Reads(g, lex, s, [])
    ensures Recognise(g, lex, preamble + Spelt(s, tail)) == Some((s, tail)) <==> !CarriesOn(g, lex, s, tail)
  {
    ReadingIsSpelling(g, lex, preamble + Spelt(s, tail), s, tail);
    assert Spells(preamble + Spelt(s, tail), preamble, s, tail);
    hide Recognise, NoActionIn;
    ReadsWithTail(g, lex, s, tail);
  }

  lemma ReadsWithTail(g: Registries, lex: Lexicon, s: Sentence, tail: Words)
    requires Reads(g, lex, s, [])
    ensures Reads(g, lex, s, tail) <==> !CarriesOn(g, lex, s, tail)
  {
  }

  /** A line means what it means without its unread words. */
  lemma UnreadWordsDoNotCount(g: Registries, lex: Lexicon, l: Line, s: Sentence, rest: Words)
    requires Recognise(g, lex, l.words) == Some((s, rest))
    ensures |rest| <= |l.words|
    ensures var read := l.(words := l.words[..|l.words| - |rest|]);
            && Recognise(g, lex, read.words) == Some((s, []))
            && RulesOf(g, EntryOf(g, lex, l)) == RulesOf(g, EntryOf(g, lex, read))
  {
    hide RulesOf;
    ReadingIsSpelling(g, lex, l.words, s, rest);
    var preamble :| Spells(l.words, preamble, s, rest);
    SpeltEndsInRest(s, rest);
    var read := l.words[..|l.words| - |rest|];
    assert l.words == (preamble + Spelt(s, [])) + rest;
    assert read == preamble + Spelt(s, []);
    assert Spells(read, preamble, s, []);
    ReadsWithoutRest(g, lex, s, rest);
    ReadingIsSpelling(g, lex, read, s, []);
  }

  lemma SpeltEndsInRest(s: Sentence, rest: Words)
    ensures Spelt(s, rest) == Spelt(s, []) + rest
  {
  }

  lemma ReadsWithoutRest(g: Registries, lex: Lexicon, s: Sentence, rest: Words)
    requires Reads(g, lex, s, rest)
    ensures Reads(g, lex, s, [])
  {
  }

  const OPEN := Sentence("permit", ProtocolWord("tcp"), AnyWord("any"), NoWords, AnyWord("any"), NoWords)

  lemma GreaterThanIsLeftOver(g: Registries, lex: Lexicon)
    ensures Recognise(g, lex, ["permit", "tcp", "any", "any", "gt", "1023"]) == Some((OPEN, ["gt", "1023"]))
  {
    var words := ["permit", "tcp", "any", "any", "gt", "1023"];
    assert words[1..] == ["tcp", "any", "any", "gt", "1023"];
    assert words[1..][1..] == ["any", "any", "gt", "1023"];
    assert words[1..][1..][1..] == ["any", "gt", "1023"];
    assert words[1..][1..][1..][1..] == ["gt", "1023"];
  }

  /** So an unsupported port clause vanishes: `permit tcp any any gt 1023` becomes a permit for every port. */
  lemma GreaterThanIsNotRead(g: Registries, lex: Lexicon, acl: string, line: int, expanded: bool)
    ensures var l := Line(acl, line, expanded, ["permit", "tcp", "any", "any", "gt", "1023"]);
            RulesOf(g, EntryOf(g, lex, l)) == [AclRule(line, Body(Permit, "tcp", AnyHost, AnyHost, None), acl)]
  {
    GreaterThanIsLeftOver(g, lex);
    hide Recognise, CrossProduct, Spelt;
    var e := EntryOf(g, lex, Line(acl, line, expanded, ["permit", "tcp", "any", "any", "gt", "1023"]));
    var r := Resolved(Permit, ["tcp"], [AnyHost], [AnyHost], [None]);
    assert e.parts == Some(Parts(Permit, Named("tcp"), Literal(AnyHost), NoPorts, Literal(AnyHost), NoPorts));
    assert Resolve(g, e.parts.value) == Some(r);
    OneRuleEach(e, r);
  }

  lemma GreaterThanIsTaken(g: Registries, lex: Lexicon)
    requires !lex.dotted("1023")
    ensures Recognise(g, lex, ["deny", "tcp", "any", "gt", "1023", "any"]) ==
              Some((Sentence("deny", ProtocolWord("tcp"), AnyWord("any"), NoWords, BareWord("gt"), NoWords),
                    ["1023", "any"]))
  {
    var words := ["deny", "tcp", "any", "gt", "1023", "any"];
    assert words[1..] == ["tcp", "any", "gt", "1023", "any"];
    assert words[1..][1..] == ["any", "gt", "1023", "any"];
    assert words[1..][1..][1..] == ["gt", "1023", "any"];
    assert words[1..][1..][1..][1..] == ["1023", "any"];
  }

  /** On the source side `gt` is taken for the destination: the deny is modelled and denies nothing. */
  lemma DenyGreaterThanIsSilent(g: Registries, lex: Lexicon, acl: string, line: int, expanded: bool)
    requires lex.spec("gt").Malformed? && !lex.dotted("1023")
    ensures var e := EntryOf(g, lex, Line(acl, line, expanded, ["deny", "tcp", "any", "gt", "1023", "any"]));
            && RulesOf(g, e) == [AclRule(line, Body(Deny, "tcp", AnyHost, lex.spec("gt"), None), acl)]
            && Modelled(g, e) && forall flow :: !RulesMatch(g, e, flow)
  {
    GreaterThanIsTaken(g, lex);
    hide Recognise, CrossProduct, Spelt;
    var e := EntryOf(g, lex, Line(acl, line, expanded, ["deny", "tcp", "any", "gt", "1023", "any"]));
    var r := Resolved(Deny, ["tcp"], [AnyHost], [lex.spec("gt")], [None]);
    assert e.parts == Some(Parts(Deny, Named("tcp"), Literal(AnyHost), NoPorts, Literal(lex.spec("gt")), NoPorts));
    assert Resolve(g, e.parts.value) == Some(r);
    OneRuleEach(e, r);
    ModelledIsResolved(g, e);
    SilentExactlyWhen(g, e);
  }

  /** One choice for every member lays out one rule. */
  lemma OneRuleEach(e: EntryLine, r: Resolved)
    requires |r.protocols| == |r.sources| == |r.destinations| == |r.ports| == 1
    ensures CrossProduct(e, r) ==
              [AclRule(e.line, Body(r.action, r.protocols[0], r.sources[0], r.destinations[0], r.ports[0]), e.acl)]
  {
    var proto, src, dst := r.protocols[0], r.sources[0], r.destinations[0];
    FlattenOne(PortRules(e, r, proto, src, dst));
    assert DestinationRules(e, r, proto, src) == Flatten([PortRules(e, r, proto, src, dst)]);
    FlattenOne(DestinationRules(e, r, proto, src));
    assert SourceRules(e, r, proto) == Flatten([DestinationRules(e, r, proto, src)]);
    FlattenOne(SourceRules(e, r, proto));
    assert CrossProduct(e, r) == Flatten([SourceRules(e, r, proto)]);
  }

  lemma FlattenOne<T>(part: seq<T>)
    ensures Flatten([part]) == part
  {
    assert [part][..0] == [];
  }
}
