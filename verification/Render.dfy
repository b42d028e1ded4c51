/** The WireGuard configuration text: the printer, and a line reader that recovers what was printed. */
module Render {
  import opened Base

  datatype WgPeer = WgPeer(publicKey: string, endpoint: string, allowedIPs: seq<string>, keepalive: int)

  datatype Interface = Interface(privateKey: string, listenPort: int, address: string, peers: seq<WgPeer>)

  /** A text buffer that is only ever appended to. */
  class Builder {
    var text: string

    constructor ()
      ensures text == ""
    {
      text := "";
    }

    method WriteString(s: string)
      modifies this
      ensures text == old(text) + s
    {
      text := text + s;
    }
  }

  predicate LineBreak(c: char) { c == '\r' || c == '\n' }

  /** A value without its line breaks. */
  function Clean(s: string): string {
    Filter(s, c => !LineBreak(c))
  }

  predicate OneLine(s: string) {
    forall i :: 0 <= i < |s| ==> !LineBreak(s[i])
  }

  lemma CleanIsOneLine(s: string)
    ensures OneLine(Clean(s))
    ensures OneLine(s) ==> Clean(s) == s
    ensures OneLine(s) <==> '\n' !in s && '\r' !in s
  {
    forall i | 0 <= i < |Clean(s)| ensures !LineBreak(Clean(s)[i]) {
      FilterMember(s, c => !LineBreak(c), Clean(s)[i]);
    }
    if OneLine(s) {
      FilterAll(s, c => !LineBreak(c));
    }
  }

  // --- what is printed, as sections of key-value entries ---

  type Entry = (string, string)

  datatype Section = Section(header: string, entries: seq<Entry>)

  function CleanList(ips: seq<string>): seq<string> {
    Map(ips, Clean)
  }

  function PeerEntries(p: WgPeer): seq<Entry> {
    [("PublicKey", Clean(p.publicKey))] +
    (if |p.allowedIPs| > 0 then [("AllowedIPs", Join(CleanList(p.allowedIPs), ", "))] else []) +
    (if p.endpoint != "" then [("Endpoint", Clean(p.endpoint))] else []) +
    (if p.keepalive > 0 then [("PersistentKeepalive", Itoa(p.keepalive))] else [])
  }

  function SyncEntries(i: Interface): seq<Entry> {
    [("PrivateKey", i.privateKey)] + (if i.listenPort > 0 then [("ListenPort", Itoa(i.listenPort))] else [])
  }

  function QuickEntries(i: Interface): seq<Entry> {
    (if i.address != "" then [("Address", i.address)] else []) + SyncEntries(i)
  }

  function PeerSections(peers: seq<WgPeer>): seq<Section> {
    Map(peers, (p: WgPeer) => Section("[Peer]", PeerEntries(p)))
  }

  // --- as text ---

  function Line(e: Entry): string {
    e.0 + " = " + e.1
  }

  /** Lines, each ended by a line feed. */
  function Text(lines: seq<string>): string {
    if lines == [] then "" else Text(lines[..|lines| - 1]) + lines[|lines| - 1] + "\n"
  }

  function PeerLines(p: WgPeer): seq<string> {
    ["", "[Peer]"] + Map(PeerEntries(p), Line)
  }

  function PeersLines(peers: seq<WgPeer>): seq<string> {
    if peers == [] then [] else PeersLines(peers[..|peers| - 1]) + PeerLines(peers[|peers| - 1])
  }

  function ConfigLines(entries: seq<Entry>, peers: seq<WgPeer>): seq<string> {
    ["[Interface]"] + Map(entries, Line) + PeersLines(peers)
  }

  lemma {:induction false} TextAppend(a: seq<string>, b: seq<string>)
    ensures Text(a + b) == Text(a) + Text(b)
  {
    if b == [] {
      assert a + b == a;
    } else {
      assert (a + b)[..|a + b| - 1] == a + b[..|b| - 1];
      TextAppend(a, b[..|b| - 1]);
    }
  }

  lemma TextOne(line: string)
    ensures Text([line]) == line + "\n"
  {
    assert [line][..0] == [];
  }

  // --- the printer ---

  /** One entry line after `entries`, in a text that starts with `before` and the lines `head`. */
  method WriteEntry(b: Builder, e: Entry, ghost before: string, ghost head: seq<string>, ghost entries: seq<Entry>)
    requires b.text == before + Text(head + Map(entries, Line))
    modifies b
    ensures b.text == before + Text(head + Map(entries + [e], Line))
  {
    b.WriteString(e.0 + " = " + e.1 + "\n");
    TextOne(Line(e));
    TextAppend(head + Map(entries, Line), [Line(e)]);
    assert head + Map(entries + [e], Line) == head + Map(entries, Line) + [Line(e)];
    hide Text, Map, Line;
    assert before + (Text(head + Map(entries, Line)) + (Line(e) + "\n")) ==
           before + Text(head + Map(entries, Line)) + (Line(e) + "\n");
  }

  method JoinClean(ips: seq<string>) returns (r: string)
    ensures r == Join(CleanList(ips), ", ")
  {
    var cleaned: seq<string> := [];
    for i := 0 to |ips|
      invariant cleaned == CleanList(ips[..i])
    {
      cleaned := cleaned + [Clean(ips[i])];
    }
    assert ips[..|ips|] == ips;
    r := Join(cleaned, ", ");
  }

  lemma PeerHeader()
    ensures Text(["", "[Peer]"]) == "\n[Peer]\n"
  {
    TextOne("");
    TextOne("[Peer]");
    TextAppend([""], ["[Peer]"]);
    assert [""] + ["[Peer]"] == ["", "[Peer]"];
  }

  method WritePeer(b: Builder, p: WgPeer)
    modifies b
    ensures b.text == old(b.text) + Text(PeerLines(p))
  {
    hide Text, Line, Clean, CleanList, Join, Itoa;
    ghost var before, head, entries: seq<Entry> := b.text, ["", "[Peer]"], [];
    b.WriteString("\n[Peer]\n");
    PeerHeader();
    assert head + Map(entries, Line) == head;
    WriteEntry(b, ("PublicKey", Clean(p.publicKey)), before, head, entries);
    entries := entries + [("PublicKey", Clean(p.publicKey))];
    hide Map;
    if |p.allowedIPs| > 0 {
      var ips := JoinClean(p.allowedIPs);
      WriteEntry(b, ("AllowedIPs", ips), before, head, entries);
      entries := entries + [("AllowedIPs", ips)];
    }
    if p.endpoint != "" {
      WriteEntry(b, ("Endpoint", Clean(p.endpoint)), before, head, entries);
      entries := entries + [("Endpoint", Clean(p.endpoint))];
    }
    if p.keepalive > 0 {
      WriteEntry(b, ("PersistentKeepalive", Itoa(p.keepalive)), before, head, entries);
      entries := entries + [("PersistentKeepalive", Itoa(p.keepalive))];
    }
    assert entries == PeerEntries(p);
  }

  method WritePeers(b: Builder, peers: seq<WgPeer>)
    modifies b
    ensures b.text == old(b.text) + Text(PeersLines(peers))
  {
    hide PeerLines;
    assert old(b.text) + Text([]) == b.text;
    for i := 0 to |peers|
      invariant b.text == old(b.text) + Text(PeersLines(peers[..i]))
    {
      ghost var sofar := b.text;
      WritePeer(b, peers[i]);
      TextPeers(peers, i);
      hide Text, PeersLines;
      assert old(b.text) + Text(PeersLines(peers[..i])) + Text(PeerLines(peers[i])) ==
             old(b.text) + (Text(PeersLines(peers[..i])) + Text(PeerLines(peers[i])));
    }
    assert peers[..|peers|] == peers;
  }

  lemma TextPeers(peers: seq<WgPeer>, i: nat)
    requires i < |peers|
    ensures Text(PeersLines(peers[..i + 1])) == Text(PeersLines(peers[..i])) + Text(PeerLines(peers[i]))
  {
    hide PeerLines, Text;
    assert peers[..i + 1][..i] == peers[..i];
    TextAppend(PeersLines(peers[..i]), PeerLines(peers[i]));
  }

  /** What both printers share: everything after the Address line. */
  method WriteRest(b: Builder, i: Interface, ghost entries: seq<Entry>)
    requires b.text == Text(["[Interface]"] + Map(entries, Line))
    modifies b
    ensures b.text == Text(ConfigLines(entries + SyncEntries(i), i.peers))
  {
    hide Text, Line, Map, PeersLines;
    ghost var head, all := ["[Interface]"], entries;
    WriteEntry(b, ("PrivateKey", i.privateKey), "", head, all);
    all := all + [("PrivateKey", i.privateKey)];
    if i.listenPort > 0 {
      WriteEntry(b, ("ListenPort", Itoa(i.listenPort)), "", head, all);
      all := all + [("ListenPort", Itoa(i.listenPort))];
    }
    assert all == entries + SyncEntries(i);
    WritePeers(b, i.peers);
    TextAppend(head + Map(all, Line), PeersLines(i.peers));
  }

  method RenderQuickConfig(i: Interface) returns (text: string)
    ensures text == Text(ConfigLines(QuickEntries(i), i.peers))
  {
    var b := new Builder();
    b.WriteString("[Interface]\n");
    ghost var entries: seq<Entry> := [];
    TextOne("[Interface]");
    assert ["[Interface]"] + Map(entries, Line) == ["[Interface]"];
    hide Text, Line, ConfigLines, SyncEntries;
    if i.address != "" {
      WriteEntry(b, ("Address", i.address), "", ["[Interface]"], entries);
      entries := entries + [("Address", i.address)];
    }
    assert entries + SyncEntries(i) == QuickEntries(i);
    WriteRest(b, i, entries);
    text := b.text;
  }

  method RenderSyncConf(i: Interface) returns (text: string)
    ensures text == Text(ConfigLines(SyncEntries(i), i.peers))
  {
    var b := new Builder();
    b.WriteString("[Interface]\n");
    TextOne("[Interface]");
    ghost var none: seq<Entry> := [];
    assert ["[Interface]"] + Map(none, Line) == ["[Interface]"];
    hide Text, Line, ConfigLines, SyncEntries;
    assert none + SyncEntries(i) == SyncEntries(i);
    WriteRest(b, i, none);
    text := b.text;
  }

  // --- a line reader ---

  /** A line split at its first " = ". */
  function SplitEntry(line: string): Option<Entry> {
    if |line| < 3 then None
    else if line[..3] == " = " then Some(("", line[3..]))
    else
      match SplitEntry(line[1..])
      case None => None
      case Some(e) => Some(([line[0]] + e.0, e.1))
  }

  /** One more line: blank, a header opening a section, or an entry of the open section. */
  function ReadLine(sections: Option<seq<Section>>, line: string): Option<seq<Section>> {
    if sections.None? || line == "" then sections
    else if line[0] == '[' then Some(sections.value + [Section(line, [])])
    else
      var open := sections.value;
      match SplitEntry(line)
      case None => None
      case Some(e) =>
        if open == [] then None
        else Some(open[|open| - 1 := Section(open[|open| - 1].header, open[|open| - 1].entries + [e])])
  }

  function ReadLines(lines: seq<string>): Option<seq<Section>> {
    if lines == [] then Some([]) else ReadLine(ReadLines(lines[..|lines| - 1]), lines[|lines| - 1])
  }

  function ReadConfig(text: string): Option<seq<Section>> {
    ReadLines(SplitOn(text, '\n'))
  }

  lemma {:induction false} SplitEntryOf(key: string, value: string)
    requires forall i :: 0 <= i < |key| ==> key[i] != ' '
    ensures SplitEntry(key + " = " + value) == Some((key, value))
  {
    var line := key + " = " + value;
    if key == "" {
      assert line[..3] == " = " && line[3..] == value;
    } else {
      assert line[1..] == key[1..] + " = " + value;
      assert line[..3][0] == key[0];
      SplitEntryOf(key[1..], value);
      assert [key[0]] + key[1..] == key;
    }
  }

  /** Text printed line by line splits into those lines and a last empty one. */
  lemma {:induction false} SplitText(lines: seq<string>)
    requires forall l :: l in lines ==> '\n' !in l
    ensures SplitOn(Text(lines), '\n') == lines + [""]
  {
    if lines != [] {
      TextAppend([lines[0]], lines[1..]);
      TextOne(lines[0]);
      assert [lines[0]] + lines[1..] == lines;
      assert Text(lines) == lines[0] + ['\n'] + Text(lines[1..]);
      SplitOnPrefix(lines[0], '\n', Text(lines[1..]));
      SplitText(lines[1..]);
    }
  }

  lemma ReadOneMore(lines: seq<string>, line: string)
    ensures ReadLines(lines + [line]) == ReadLine(ReadLines(lines), line)
  {
    assert (lines + [line])[..|lines|] == lines;
  }

  /** A key the reader cannot mistake for a header, a blank line or a separator. */
  predicate KeyText(key: string) {
    key != "" && key[0] != '[' && forall i :: 0 <= i < |key| ==> key[i] != ' '
  }

  predicate KeysOk(entries: seq<Entry>) {
    forall i :: 0 <= i < |entries| ==> KeyText(entries[i].0)
  }

  /** Reading the entry lines of an open section appends exactly those entries. */
  lemma {:induction false} ReadEntries(before: seq<string>, done: seq<Section>, header: string, entries: seq<Entry>)
    requires ReadLines(before) == Some(done + [Section(header, [])]) && KeysOk(entries)
    ensures ReadLines(before + Map(entries, Line)) == Some(done + [Section(header, entries)])
  {
    if entries == [] {
      assert before + Map(entries, Line) == before;
    } else {
      var front, e := entries[..|entries| - 1], entries[|entries| - 1];
      ReadEntries(before, done, header, front);
      assert before + Map(entries, Line) == before + Map(front, Line) + [Line(e)];
      ReadOneMore(before + Map(front, Line), Line(e));
      SplitEntryOf(e.0, e.1);
      assert Line(e)[0] == e.0[0];
      assert front + [e] == entries;
      var open := done + [Section(header, front)];
      assert open[|open| - 1 := Section(header, front + [e])] == done + [Section(header, entries)];
    }
  }

  lemma PeerKeys(p: WgPeer)
    ensures KeysOk(PeerEntries(p))
  {
  }

  lemma {:induction false} ReadPeers(before: seq<string>, done: seq<Section>, peers: seq<WgPeer>)
    requires ReadLines(before) == Some(done)
    ensures ReadLines(before + PeersLines(peers)) == Some(done + PeerSections(peers))
  {
    hide PeerEntries, ReadLines, ReadLine, PeerLines, Line;
    if peers == [] {
      assert before + PeersLines(peers) == before;
      assert done + PeerSections(peers) == done;
    } else {
      var front, p := peers[..|peers| - 1], peers[|peers| - 1];
      ReadPeers(before, done, front);
      ReadPeer(before + PeersLines(front), done + PeerSections(front), p);
      assert before + PeersLines(peers) == before + PeersLines(front) + PeerLines(p);
      assert done + PeerSections(peers) == done + PeerSections(front) + [Section("[Peer]", PeerEntries(p))];
    }
  }

  /** A blank line, the header and the entries read as one more section. */
  lemma ReadPeer(before: seq<string>, done: seq<Section>, p: WgPeer)
    requires ReadLines(before) == Some(done)
    ensures ReadLines(before + PeerLines(p)) == Some(done + [Section("[Peer]", PeerEntries(p))])
  {
    PeerKeys(p);
    hide PeerEntries, ReadLines, Line;
    ReadOneMore(before, "");
    ReadOneMore(before + [""], "[Peer]");
    assert before + PeerLines(p) == before + [""] + ["[Peer]"] + Map(PeerEntries(p), Line);
    ReadEntries(before + [""] + ["[Peer]"], done, "[Peer]", PeerEntries(p));
  }

  // --- no field can add a line ---

  predicate ValuesOneLine(entries: seq<Entry>) {
    forall i :: 0 <= i < |entries| ==> '\n' !in entries[i].0 && '\n' !in entries[i].1
  }

  lemma {:induction false} JoinOneLine(parts: seq<string>, sep: string)
    requires '\n' !in sep && forall p :: p in parts ==> '\n' !in p
    ensures '\n' !in Join(parts, sep)
  {
    if |parts| >= 2 {
      JoinOneLine(parts[..|parts| - 1], sep);
    }
  }

  lemma CleanNoFeed(s: string)
    ensures '\n' !in Clean(s)
  {
    FilterMember(s, c => !LineBreak(c), '\n');
  }

  lemma ItoaNoFeed(n: int)
    ensures '\n' !in Itoa(n)
  {
    if '\n' in Digits(if n < 0 then -n else n) {
      DigitsWithin(if n < 0 then -n else n, '\n');
    }
  }

  lemma PeerValuesOneLine(p: WgPeer)
    ensures ValuesOneLine(PeerEntries(p))
  {
    CleanNoFeed(p.publicKey);
    CleanNoFeed(p.endpoint);
    ItoaNoFeed(p.keepalive);
    forall ip | ip in CleanList(p.allowedIPs) ensures '\n' !in ip {
      var i :| 0 <= i < |p.allowedIPs| && ip == CleanList(p.allowedIPs)[i];
      CleanNoFeed(p.allowedIPs[i]);
    }
    JoinOneLine(CleanList(p.allowedIPs), ", ");
  }

  lemma LinesOneLine(entries: seq<Entry>, l: string)
    requires ValuesOneLine(entries) && l in Map(entries, Line)
    ensures '\n' !in l
  {
    var k :| 0 <= k < |entries| && l == Map(entries, Line)[k];
    var e := entries[k];
    assert l == Line(e);
    assert '\n' !in e.0 && '\n' !in e.1 && '\n' !in " = ";
  }

  lemma {:induction false} PeersLinesOneLine(peers: seq<WgPeer>, l: string)
    requires l in PeersLines(peers)
    ensures '\n' !in l
  {
    hide PeerEntries, Line, ValuesOneLine, Map;
    var front, p := peers[..|peers| - 1], peers[|peers| - 1];
    if l in PeersLines(front) {
      PeersLinesOneLine(front, l);
    } else {
      PeerValuesOneLine(p);
      if l in Map(PeerEntries(p), Line) {
        LinesOneLine(PeerEntries(p), l);
      } else {
        assert l in ["", "[Peer]"];
      }
    }
  }

  lemma ConfigOneLine(entries: seq<Entry>, peers: seq<WgPeer>, l: string)
    requires ValuesOneLine(entries) && l in ConfigLines(entries, peers)
    ensures '\n' !in l
  {
    hide PeersLines, Line, ValuesOneLine, Map;
    if l in PeersLines(peers) {
      PeersLinesOneLine(peers, l);
    } else if l in Map(entries, Line) {
      LinesOneLine(entries, l);
    } else {
      assert l in ["[Interface]"];
    }
  }

  lemma ConfigReads(entries: seq<Entry>, peers: seq<WgPeer>)
    requires KeysOk(entries) && ValuesOneLine(entries)
    ensures ReadConfig(Text(ConfigLines(entries, peers))) ==
        Some([Section("[Interface]", entries)] + PeerSections(peers))
  {
    var lines := ConfigLines(entries, peers);
    forall l | l in lines ensures '\n' !in l {
      ConfigOneLine(entries, peers, l);
    }
    SplitText(lines);
    ReadOneMore(lines, "");
    ReadInterface(entries);
    ReadPeers(["[Interface]"] + Map(entries, Line), [Section("[Interface]", entries)], peers);
    hide Text, ReadLines, SplitOn, PeerSections, PeersLines, Map, Line;
    assert ReadLine(Some([Section("[Interface]", entries)] + PeerSections(peers)), "") ==
           Some([Section("[Interface]", entries)] + PeerSections(peers));
  }

  lemma ReadInterface(entries: seq<Entry>)
    requires KeysOk(entries)
    ensures ReadLines(["[Interface]"] + Map(entries, Line)) == Some([Section("[Interface]", entries)])
  {
    ReadOneMore([], "[Interface]");
    assert [] + ["[Interface]"] == ["[Interface]"];
    var none: seq<Section> := [];
    assert none + [Section("[Interface]", [])] == [Section("[Interface]", [])];
    assert none + [Section("[Interface]", entries)] == [Section("[Interface]", entries)];
    ReadEntries(["[Interface]"], [], "[Interface]", entries);
  }

  /** Reading back what was printed: for any peer field contents whatever, the text has exactly one
      interface section and one section per peer, in order, holding the cleaned fields. */
  lemma RenderInvertible(i: Interface)
    requires OneLine(i.privateKey) && OneLine(i.address)
    ensures ReadConfig(Text(ConfigLines(QuickEntries(i), i.peers))) ==
            Some([Section("[Interface]", QuickEntries(i))] + PeerSections(i.peers))
    ensures ReadConfig(Text(ConfigLines(SyncEntries(i), i.peers))) ==
            Some([Section("[Interface]", SyncEntries(i))] + PeerSections(i.peers))
  {
    ItoaNoFeed(i.listenPort);
    assert KeysOk(QuickEntries(i)) && ValuesOneLine(QuickEntries(i));
    assert KeysOk(SyncEntries(i)) && ValuesOneLine(SyncEntries(i));
    hide *;
    ConfigReads(QuickEntries(i), i.peers);
    ConfigReads(SyncEntries(i), i.peers);
  }

  /** The two forms differ by the Address line only. */
  lemma QuickIsSyncPlusAddress(i: Interface)
    ensures var sync := Text(ConfigLines(SyncEntries(i), i.peers));
            var rest := Text(Map(SyncEntries(i), Line) + PeersLines(i.peers));
            sync == "[Interface]\n" + rest &&
            Text(ConfigLines(QuickEntries(i), i.peers)) ==
              "[Interface]\n" + (if i.address != "" then "Address = " + i.address + "\n" else "") + rest
  {
    var sync, peers := Map(SyncEntries(i), Line), PeersLines(i.peers);
    TextOne("[Interface]");
    TextAppend(["[Interface]"], sync + peers);
    hide Text, SyncEntries, PeersLines;
    assert ConfigLines(SyncEntries(i), i.peers) == ["[Interface]"] + (sync + peers);
    if i.address == "" {
      assert [] + SyncEntries(i) == SyncEntries(i);
    } else {
      var line := Line(("Address", i.address));
      assert Map(QuickEntries(i), Line) == [line] + sync;
      TextOne(line);
      TextAppend(["[Interface]"], [line] + (sync + peers));
      TextAppend([line], sync + peers);
      hide Map, Line;
      assert ConfigLines(QuickEntries(i), i.peers) == ["[Interface]"] + ([line] + (sync + peers));
    }
  }

  // --- the fields read back by name ---

  function Count(present: bool): nat { if present then 1 else 0 }

  /** One peer's lines: its key always, its allowed addresses when it has any, its endpoint when it has one,
      the keepalive when positive; each once and nothing else. */
  lemma PeerLinesAre(p: WgPeer, e: Entry)
    ensures e in PeerEntries(p) <==>
            || e == ("PublicKey", Clean(p.publicKey))
            || (p.allowedIPs != [] && e == ("AllowedIPs", Join(CleanList(p.allowedIPs), ", ")))
            || (p.endpoint != "" && e == ("Endpoint", Clean(p.endpoint)))
            || (p.keepalive > 0 && e == ("PersistentKeepalive", Itoa(p.keepalive)))
    ensures |PeerEntries(p)| == 1 + Count(p.allowedIPs != []) + Count(p.endpoint != "") + Count(p.keepalive > 0)
  {
    hide Clean, CleanList, Join, Itoa;
  }

  /** The interface's lines: the private key always, the port when positive, and in the quick form the
      address when there is one. */
  lemma InterfaceLinesAre(i: Interface, e: Entry)
    ensures e in SyncEntries(i) <==>
            e == ("PrivateKey", i.privateKey) || (i.listenPort > 0 && e == ("ListenPort", Itoa(i.listenPort)))
    ensures e in QuickEntries(i) <==> e in SyncEntries(i) || (i.address != "" && e == ("Address", i.address))
    ensures |SyncEntries(i)| == 1 + Count(i.listenPort > 0)
    ensures |QuickEntries(i)| == |SyncEntries(i)| + Count(i.address != "")
  {
    hide Itoa;
  }

  /** Read back from the printed text, by name: one interface section first, then one section per peer, in
      order, each with exactly the lines its fields call for. */
  lemma FieldsReadBack(i: Interface, k: nat, e: Entry)
    requires OneLine(i.privateKey) && OneLine(i.address) && k < |i.peers|
    ensures var r, p := ReadConfig(Text(ConfigLines(QuickEntries(i), i.peers))), i.peers[k];
            && r.Some? && |r.value| == 1 + |i.peers|
            && r.value[0].header == "[Interface]" && r.value[k + 1].header == "[Peer]"
            && (e in r.value[0].entries <==>
                  || e == ("PrivateKey", i.privateKey)
                  || (i.listenPort > 0 && e == ("ListenPort", Itoa(i.listenPort)))
                  || (i.address != "" && e == ("Address", i.address)))
            && (e in r.value[k + 1].entries <==>
                  || e == ("PublicKey", Clean(p.publicKey))
                  || (p.allowedIPs != [] && e == ("AllowedIPs", Join(CleanList(p.allowedIPs), ", ")))
                  || (p.endpoint != "" && e == ("Endpoint", Clean(p.endpoint)))
                  || (p.keepalive > 0 && e == ("PersistentKeepalive", Itoa(p.keepalive))))
  {
    RenderInvertible(i);
    InterfaceLinesAre(i, e);
    PeerLinesAre(i.peers[k], e);
    hide ReadConfig, Text, ConfigLines, QuickEntries, SyncEntries, PeerEntries, Clean, CleanList, Join, Itoa, OneLine;
    assert PeerSections(i.peers)[k] == Section("[Peer]", PeerEntries(i.peers[k]));
  }
}
