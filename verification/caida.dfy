/** The line-level half of the CAIDA serial-2 converter: how each line of an
    AS-relationship file is classified and what it adds to the per-AS records
    (`asn_to_as`). Reading the file, the JSON cache and the extra graph set-up
    run afterwards are not part of this module. */
module Caida {
  import opened Wrappers
  import opened Text

  /** The fields of an `AS` object that the converter fills in. */
  datatype AsRecord = AsRecord(asn: int, tier1: bool, ixp: bool,
                               peers: set<int>, providers: set<int>, customers: set<int>)

  /** `asn_to_as`: the records created so far, keyed by ASN. */
  type Store = map<int, AsRecord>

  /** `AS(asn=asn)`: a record holding every default. */
  function Fresh(asn: int): AsRecord {
    AsRecord(asn, false, false, {}, {}, {})
  }

  /** The record `asn_to_as.setdefault(asn, AS(asn=asn))` hands back: the
      stored one if there is one, a fresh one otherwise. */
  function Entry(st: Store, asn: int): AsRecord {
    if asn in st then st[asn] else Fresh(asn)
  }

  /** Every record is filed under its own ASN. */
  ghost predicate Keyed(st: Store) {
    forall k :: k in st ==> st[k].asn == k
  }

  /** A customer lists its provider. */
  ghost predicate CustomersMirrored(st: Store) {
    forall a, b :: a in st && b in st[a].customers ==> b in st && a in st[b].providers
  }

  /** A provider lists its customer. */
  ghost predicate ProvidersMirrored(st: Store) {
    forall a, b :: a in st && b in st[a].providers ==> b in st && a in st[b].customers
  }

  /** Peering goes both ways. */
  ghost predicate PeersMirrored(st: Store) {
    forall a, b :: a in st && b in st[a].peers ==> b in st && a in st[b].peers
  }

  /** The records agree with each other: each is filed under its own ASN,
      customer and provider sets mirror each other, and peering is
      symmetric. */
  ghost predicate Consistent(st: Store) {
    Keyed(st) && CustomersMirrored(st) && ProvidersMirrored(st) && PeersMirrored(st)
  }

  /* ---------------------------------------------------------------------
     Classifying a line
     --------------------------------------------------------------------- */

  datatype LineKind = InputClique | IxpList | Comment | ProviderCustomer | Peering

  const CliqueHeader := "# input clique"
  const IxpHeader := "# IXP ASes"

  /** Which branch of the converter's loop a line takes. */
  function Classify(line: string): (k: LineKind)
    ensures k == InputClique <==> StartsWith(line, CliqueHeader)
    ensures k == IxpList <==> !StartsWith(line, CliqueHeader) && StartsWith(line, IxpHeader)
    ensures k == Comment <==>
              && !StartsWith(line, CliqueHeader) && !StartsWith(line, IxpHeader)
              && StartsWith(line, "#")
    ensures k == ProviderCustomer <==> !StartsWith(line, "#") && HasSub(line, "-1")
    ensures k == Peering <==> !StartsWith(line, "#") && !HasSub(line, "-1")
  {
    if StartsWith(line, CliqueHeader) then
      assert line[0] == '#';
      InputClique
    else if StartsWith(line, IxpHeader) then
      assert line[0] == '#';
      IxpList
    else if StartsWith(line, "#") then Comment
    else if Contains(line, "-1") then ProviderCustomer
    else Peering
  }

  /* ---------------------------------------------------------------------
     Relationship lines
     --------------------------------------------------------------------- */

  /** The two ASNs of a relationship line. The line must split into exactly
      four `|`-separated fields (otherwise unpacking fails), and the first two
      must be integer text; every failure is a ValueError. */
  function EndPoints(line: string): (r: Result<(int, int)>)
    ensures var f := Split(line, '|');
            r.Ok? <==> |f| == 4 && IntText(Strip(f[0])) && IntText(Strip(f[1]))
    ensures r.Err? ==> r.error == ValueError
  {
    var f := Split(line, '|');
    if |f| != 4 then Err(ValueError)
    else
      var a :- ParseInt(f[0]);
      var b :- ParseInt(f[1]);
      Ok((a, b))
  }

  /** `r` is `st` after `p` gained customer `c` and `c` gained provider `p`,
      each record created first if it was missing; nothing else differs. */
  ghost predicate CustomerAdded(st: Store, r: Store, p: int, c: int) {
    && r.Keys == st.Keys + {p, c}
    && forall k :: k in r ==>
         var e := Entry(st, k);
         r[k] == e.(customers := e.customers + (if k == p then {c} else {}),
                    providers := e.providers + (if k == c then {p} else {}))
  }

  /** `r` is `st` after `a` and `b` each gained the other as a peer, each
      record created first if it was missing; nothing else differs. */
  ghost predicate PeerAdded(st: Store, r: Store, a: int, b: int) {
    && r.Keys == st.Keys + {a, b}
    && forall k :: k in r ==>
         var e := Entry(st, k);
         r[k] == e.(peers := e.peers + (if k == a then {b} else {}) + (if k == b then {a} else {}))
  }

  /** The two `setdefault` calls and `add`s of `_extract_provider_customers`. */
  function AddCustomer(st: Store, p: int, c: int): (r: Store)
    ensures CustomerAdded(st, r, p, c)
  {
    var pe := Entry(st, p);
    var st1 := st[p := pe.(customers := pe.customers + {c})];
    var ce := Entry(st1, c);
    st1[c := ce.(providers := ce.providers + {p})]
  }

  /** The two `setdefault` calls and `add`s of `_extract_peers`. */
  function AddPeer(st: Store, a: int, b: int): (r: Store)
    ensures PeerAdded(st, r, a, b)
  {
    var ae := Entry(st, a);
    var st1 := st[a := ae.(peers := ae.peers + {b})];
    var be := Entry(st1, b);
    st1[b := be.(peers := be.peers + {a})]
  }

  /** `_extract_provider_customers`: `p|c|-1|src` makes `c` a customer of `p`. */
  function ExtractProviderCustomers(st: Store, line: string): (r: Result<Store>)
    ensures r.Ok? <==> EndPoints(line).Ok?
    ensures r.Err? ==> r.error == ValueError
    ensures r.Ok? ==> CustomerAdded(st, r.value, EndPoints(line).value.0, EndPoints(line).value.1)
  {
    var e :- EndPoints(line);
    Ok(AddCustomer(st, e.0, e.1))
  }

  /** `_extract_peers`: `a|b|0|src` makes `a` and `b` peers of each other. */
  function ExtractPeers(st: Store, line: string): (r: Result<Store>)
    ensures r.Ok? <==> EndPoints(line).Ok?
    ensures r.Err? ==> r.error == ValueError
    ensures r.Ok? ==> PeerAdded(st, r.value, EndPoints(line).value.0, EndPoints(line).value.1)
  {
    var e :- EndPoints(line);
    Ok(AddPeer(st, e.0, e.1))
  }

  /** Recording a provider-customer pair keeps the store consistent. */
  lemma CustomerAddedConsistent(st: Store, r: Store, p: int, c: int)
    requires Consistent(st) && CustomerAdded(st, r, p, c)
    ensures Consistent(r)
  {
    CustomerAddedCustomers(st, r, p, c);
    CustomerAddedProviders(st, r, p, c);
    forall a, b | a in r && b in r[a].peers ensures b in r && a in r[b].peers {
      assert b in st[a].peers;
    }
  }

  lemma CustomerAddedCustomers(st: Store, r: Store, p: int, c: int)
    requires CustomersMirrored(st) && CustomerAdded(st, r, p, c)
    ensures CustomersMirrored(r)
  {
    forall a, b | a in r && b in r[a].customers ensures b in r && a in r[b].providers {
      if !(a == p && b == c) {
        assert b in st[a].customers;
      }
    }
  }

  lemma CustomerAddedProviders(st: Store, r: Store, p: int, c: int)
    requires ProvidersMirrored(st) && CustomerAdded(st, r, p, c)
    ensures ProvidersMirrored(r)
  {
    forall a, b | a in r && b in r[a].providers ensures b in r && a in r[b].customers {
      if !(a == c && b == p) {
        assert b in st[a].providers;
      }
    }
  }

  /** Recording a peering keeps the store consistent. */
  lemma PeerAddedConsistent(st: Store, r: Store, a0: int, b0: int)
    requires Consistent(st) && PeerAdded(st, r, a0, b0)
    ensures Consistent(r)
  {
    forall a, b | a in r && b in r[a].customers ensures b in r && a in r[b].providers {
      assert b in st[a].customers;
    }
    forall a, b | a in r && b in r[a].providers ensures b in r && a in r[b].customers {
      assert b in st[a].providers;
    }
    PeerAddedPeers(st, r, a0, b0);
  }

  lemma PeerAddedPeers(st: Store, r: Store, a0: int, b0: int)
    requires PeersMirrored(st) && PeerAdded(st, r, a0, b0)
    ensures PeersMirrored(r)
  {
    forall a, b | a in r && b in r[a].peers ensures b in r && a in r[b].peers {
      if !((a == a0 && b == b0) || (a == b0 && b == a0)) {
        assert b in st[a].peers;
      }
    }
  }

  /* ---------------------------------------------------------------------
     Input-clique and IXP comment lines
     --------------------------------------------------------------------- */

  /** The tokens of a list comment: the text after its last colon, stripped,
      then split on single spaces. */
  function ListedTokens(line: string): seq<string> {
    var parts := Split(line, ':');
    Split(Strip(parts[|parts| - 1]), ' ')
  }

  /** Which flag a list comment sets. */
  datatype Flag = Tier1 | Ixp

  function Mark(e: AsRecord, f: Flag): AsRecord {
    if f == Tier1 then e.(tier1 := true) else e.(ixp := true)
  }

  /** The ASNs among `tokens` that `int()` accepts. */
  function ParsedAsns(tokens: seq<string>): set<int> {
    if |tokens| == 0 then {}
    else (if ParseInt(tokens[0]).Ok? then {ParseInt(tokens[0]).value} else {}) + ParsedAsns(tokens[1..])
  }

  /** Every token is integer text. */
  predicate AllParse(tokens: seq<string>) {
    forall i :: 0 <= i < |tokens| ==> ParseInt(tokens[i]).Ok?
  }

  /** `r` is `st` with flag `f` set on the record of every ASN in `asns`,
      each record created first if it was missing; nothing else differs. */
  ghost predicate Marked(st: Store, r: Store, asns: set<int>, f: Flag) {
    && r.Keys == st.Keys + asns
    && forall k :: k in r ==> r[k] == (if k in asns then Mark(Entry(st, k), f) else st[k])
  }

  /** The loop of `_extract_input_clique_asns` (flag `Tier1`) or
      `_extract_ixp_asns` (flag `Ixp`) over the tokens of one line. The
      first token `int()` rejects raises ValueError. */
  function MarkAll(st: Store, tokens: seq<string>, f: Flag): (r: Result<Store>)
    ensures r.Ok? <==> AllParse(tokens)
    ensures r.Err? ==> r.error == ValueError
    ensures r.Ok? ==> Marked(st, r.value, ParsedAsns(tokens), f)
    decreases |tokens|
  {
    if |tokens| == 0 then Ok(st)
    else
      var a :- ParseInt(tokens[0]);
      var st1 := st[a := Mark(Entry(st, a), f)];
      var r := MarkAll(st1, tokens[1..], f);
      assert AllParse(tokens) <==> AllParse(tokens[1..]) by {
        if AllParse(tokens[1..]) {
          forall i | 0 <= i < |tokens| ensures ParseInt(tokens[i]).Ok? {
            if i > 0 { assert tokens[i] == tokens[1..][i - 1]; }
          }
        }
      }
      if r.Ok? then MarkedStep(st, st1, r.value, a, ParsedAsns(tokens[1..]), f); r else r
  }

  /** Marking `a` and then the set `rest` marks `{a} + rest`. */
  lemma MarkedStep(st: Store, st1: Store, r: Store, a: int, rest: set<int>, f: Flag)
    requires st1 == st[a := Mark(Entry(st, a), f)]
    requires Marked(st1, r, rest, f)
    ensures Marked(st, r, {a} + rest, f)
  {
    forall k | k in r
      ensures r[k] == (if k in {a} + rest then Mark(Entry(st, k), f) else st[k])
    {
    }
  }

  /** Setting a flag leaves the relationship sets alone, so consistency is
      kept. */
  lemma MarkedConsistent(st: Store, r: Store, asns: set<int>, f: Flag)
    requires Consistent(st) && Marked(st, r, asns, f)
    ensures Consistent(r)
  {
    MarkedCustomers(st, r, asns, f);
    MarkedProviders(st, r, asns, f);
    MarkedPeers(st, r, asns, f);
  }

  lemma MarkedCustomers(st: Store, r: Store, asns: set<int>, f: Flag)
    requires CustomersMirrored(st) && Marked(st, r, asns, f)
    ensures CustomersMirrored(r)
  {
    forall a, b | a in r && b in r[a].customers ensures b in r && a in r[b].providers {
      assert b in st[a].customers;
    }
  }

  lemma MarkedProviders(st: Store, r: Store, asns: set<int>, f: Flag)
    requires ProvidersMirrored(st) && Marked(st, r, asns, f)
    ensures ProvidersMirrored(r)
  {
    forall a, b | a in r && b in r[a].providers ensures b in r && a in r[b].customers {
      assert b in st[a].providers;
    }
  }

  lemma MarkedPeers(st: Store, r: Store, asns: set<int>, f: Flag)
    requires PeersMirrored(st) && Marked(st, r, asns, f)
    ensures PeersMirrored(r)
  {
    forall a, b | a in r && b in r[a].peers ensures b in r && a in r[b].peers {
      assert b in st[a].peers;
    }
  }

  /* ---------------------------------------------------------------------
     One line and the whole file
     --------------------------------------------------------------------- */

  /** One iteration of the converter's loop, with the input-clique branch
      calling `_extract_input_clique_asns`. Records are only ever created or
      extended, never replaced. */
  function ProcessLine(st: Store, line: string): (r: Result<Store>)
    ensures Classify(line) == Comment ==> r == Ok(st)
    ensures r.Ok? ==> st.Keys <= r.value.Keys
    ensures r.Ok? ==> forall k :: k in st ==> r.value[k].asn == st[k].asn
    ensures r.Err? ==> r.error == ValueError
  {
    match Classify(line)
    case InputClique => MarkAll(st, ListedTokens(line), Tier1)
    case IxpList => MarkAll(st, ListedTokens(line), Ixp)
    case Comment => Ok(st)
    case ProviderCustomer => ExtractProviderCustomers(st, line)
    case Peering => ExtractPeers(st, line)
  }

  /** The loop of `_write_as_graph_json` over the lines of the file; the
      first line that raises ends the conversion. */
  function Convert(st: Store, lines: seq<string>): (r: Result<Store>)
    ensures r.Ok? ==> st.Keys <= r.value.Keys
    decreases |lines|
  {
    if |lines| == 0 then Ok(st)
    else
      var st1 :- ProcessLine(st, lines[0]);
      Convert(st1, lines[1..])
  }

  /** Each line keeps the records consistent. */
  lemma ProcessLineConsistent(st: Store, line: string)
    requires Consistent(st) && ProcessLine(st, line).Ok?
    ensures Consistent(ProcessLine(st, line).value)
  {
    var r := ProcessLine(st, line).value;
    match Classify(line)
    case InputClique => MarkedConsistent(st, r, ParsedAsns(ListedTokens(line)), Tier1);
    case IxpList => MarkedConsistent(st, r, ParsedAsns(ListedTokens(line)), Ixp);
    case Comment =>
    case ProviderCustomer =>
      CustomerAddedConsistent(st, r, EndPoints(line).value.0, EndPoints(line).value.1);
    case Peering =>
      PeerAddedConsistent(st, r, EndPoints(line).value.0, EndPoints(line).value.1);
  }

  /** Whatever file is converted, customer and provider sets mirror each
      other and peering is symmetric. */
  lemma {:induction false} ConvertConsistent(st: Store, lines: seq<string>)
    requires Consistent(st) && Convert(st, lines).Ok?
    ensures Consistent(Convert(st, lines).value)
    decreases |lines|
  {
    if |lines| > 0 {
      ProcessLineConsistent(st, lines[0]);
      ConvertConsistent(ProcessLine(st, lines[0]).value, lines[1..]);
    }
  }

  /** `lines[i]` is an input-clique comment listing `k`. */
  ghost predicate CliqueListed(lines: seq<string>, k: int) {
    exists i :: 0 <= i < |lines| && Classify(lines[i]) == InputClique
                && k in ParsedAsns(ListedTokens(lines[i]))
  }

  /** One line sets `tier1` on exactly the ASNs it lists when it is an
      input-clique comment, and on nothing otherwise. */
  lemma ProcessLineTier1(st: Store, line: string)
    requires ProcessLine(st, line).Ok?
    ensures var r := ProcessLine(st, line).value;
            var listed := if Classify(line) == InputClique then ParsedAsns(ListedTokens(line)) else {};
            && listed <= r.Keys
            && forall k :: k in r ==> (r[k].tier1 <==> Entry(st, k).tier1 || k in listed)
  {
    var r := ProcessLine(st, line).value;
    match Classify(line)
    case InputClique =>
    case IxpList =>
    case Comment =>
    case ProviderCustomer =>
      var e := EndPoints(line).value;
      forall k | k in r ensures r[k].tier1 == Entry(st, k).tier1 { }
    case Peering =>
      var e := EndPoints(line).value;
      forall k | k in r ensures r[k].tier1 == Entry(st, k).tier1 { }
  }

  /** After a successful conversion, an AS is tier-1 exactly when it was
      tier-1 already or some input-clique comment lists it, and every listed
      ASN has a record. */
  lemma {:induction false} ConvertTier1(st: Store, lines: seq<string>)
    requires Convert(st, lines).Ok?
    ensures var r := Convert(st, lines).value;
            && (forall k :: CliqueListed(lines, k) ==> k in r)
            && forall k :: k in r ==> (r[k].tier1 <==> Entry(st, k).tier1 || CliqueListed(lines, k))
    decreases |lines|
  {
    if |lines| > 0 {
      var st1 := ProcessLine(st, lines[0]).value;
      var r := Convert(st, lines).value;
      assert r == Convert(st1, lines[1..]).value;
      ProcessLineTier1(st, lines[0]);
      ConvertTier1(st1, lines[1..]);
      forall k ensures CliqueListed(lines, k) <==>
                         (Classify(lines[0]) == InputClique && k in ParsedAsns(ListedTokens(lines[0])))
                         || CliqueListed(lines[1..], k)
      {
        if CliqueListed(lines, k) {
          var i :| 0 <= i < |lines| && Classify(lines[i]) == InputClique
                   && k in ParsedAsns(ListedTokens(lines[i]));
          if i > 0 { assert lines[i] == lines[1..][i - 1]; }
        }
        if CliqueListed(lines[1..], k) {
          var i :| 0 <= i < |lines[1..]| && Classify(lines[1..][i]) == InputClique
                   && k in ParsedAsns(ListedTokens(lines[1..][i]));
          assert lines[1..][i] == lines[i + 1];
        }
      }
      forall k | k in r
        ensures r[k].tier1 <==> Entry(st, k).tier1 || CliqueListed(lines, k)
      {
        if k in st1 {
          assert Entry(st1, k) == st1[k];
        } else {
          assert !Entry(st, k).tier1;
        }
      }
    }
  }

  /* ---------------------------------------------------------------------
     The converter as written: line 37 calls `_extract_tier_1_asns`, which the
     class does not define, so an input-clique comment raises AttributeError.
     --------------------------------------------------------------------- */

  function ProcessLineAsWritten(st: Store, line: string): (r: Result<Store>)
    ensures StartsWith(line, CliqueHeader) ==> r == Err(AttributeError)
    ensures !StartsWith(line, CliqueHeader) ==> r == ProcessLine(st, line)
  {
    if Classify(line) == InputClique then Err(AttributeError) else ProcessLine(st, line)
  }

  function ConvertAsWritten(st: Store, lines: seq<string>): (r: Result<Store>)
    decreases |lines|
  {
    if |lines| == 0 then Ok(st)
    else
      var st1 :- ProcessLineAsWritten(st, lines[0]);
      ConvertAsWritten(st1, lines[1..])
  }

  /** As written, no conversion that succeeds ever marks an AS tier-1: a file
      with an input-clique comment fails, and no other line sets the flag. */
  lemma {:induction false} AsWrittenNeverTier1(st: Store, lines: seq<string>)
    requires ConvertAsWritten(st, lines).Ok?
    ensures var r := ConvertAsWritten(st, lines).value;
            && (forall i :: 0 <= i < |lines| ==> !StartsWith(lines[i], CliqueHeader))
            && forall k :: k in r ==> r[k].tier1 == Entry(st, k).tier1
    decreases |lines|
  {
    if |lines| > 0 {
      var st1 := ProcessLineAsWritten(st, lines[0]).value;
      ProcessLineTier1(st, lines[0]);
      AsWrittenNeverTier1(st1, lines[1..]);
      var r := ConvertAsWritten(st, lines).value;
      assert r == ConvertAsWritten(st1, lines[1..]).value;
      forall i | 0 <= i < |lines| ensures !StartsWith(lines[i], CliqueHeader) {
        if i == 0 {
          assert ProcessLineAsWritten(st, lines[0]).Ok?;
        } else {
          assert lines[i] == lines[1..][i - 1];
        }
      }
      forall k | k in r ensures r[k].tier1 == Entry(st, k).tier1 {
        if k !in st1 { assert !Entry(st, k).tier1; }
      }
    }
  }

  /* ---------------------------------------------------------------------
     Lines as CAIDA writes them
     --------------------------------------------------------------------- */

  /** `str(n)` contains only digits and a leading minus sign. */
  lemma ShowIntChars(n: int, c: char)
    requires c in ShowInt(n)
    ensures IsDigit(c) || c == '-'
  {
    if n < 0 {
      var d := ShowNat(-n);
      var i :| 0 <= i < |"-" + d| && ("-" + d)[i] == c;
      if i > 0 { assert c == d[i - 1]; }
    }
  }

  /** `str(n)` never contains `c` when `c` is neither a digit nor `-`. */
  lemma ShowIntWithout(n: int, c: char)
    requires !IsDigit(c) && c != '-'
    ensures c !in ShowInt(n)
  {
    if c in ShowInt(n) { ShowIntChars(n, c); }
  }

  lemma DigitsWithout(s: string, c: char)
    requires AllDigits(s) && !IsDigit(c)
    ensures c !in s
  {
  }

  lemma Join4(a: string, b: string, c: string, d: string, sep: char)
    ensures Join([a, b, c, d], sep) == a + [sep] + b + [sep] + c + [sep] + d
  {
    assert [c, d][1..] == [d];
    assert Join([c, d], sep) == c + [sep] + d;
    assert [b, c, d][1..] == [c, d];
    assert Join([b, c, d], sep) == b + [sep] + c + [sep] + d;
    assert [a, b, c, d][1..] == [b, c, d];
  }

  /** The four fields of a rendered relationship line. */
  lemma RenderedFields(a: int, b: int, rel: string, src: string)
    requires '|' !in rel && '|' !in src
    ensures Split(ShowInt(a) + "|" + ShowInt(b) + "|" + rel + "|" + src, '|')
            == [ShowInt(a), ShowInt(b), rel, src]
  {
    var parts := [ShowInt(a), ShowInt(b), rel, src];
    ShowIntWithout(a, '|');
    ShowIntWithout(b, '|');
    Join4(ShowInt(a), ShowInt(b), rel, src, '|');
    SplitJoin(parts, '|');
  }

  /** The end points of a rendered relationship line read back as the ASNs
      that were rendered. */
  lemma RenderedEndPoints(a: int, b: int, rel: string, src: string)
    requires '|' !in rel && '|' !in src
    ensures EndPoints(ShowInt(a) + "|" + ShowInt(b) + "|" + rel + "|" + src) == Ok((a, b))
  {
    RenderedFields(a, b, rel, src);
    ParseShowInt(a);
    ParseShowInt(b);
  }

  /** `t` occurs in `x + t + y + z` right after `x`. */
  lemma AtJoint(x: string, t: string, y: string, z: string)
    ensures At(x + t + y + z, t, |x|)
  {
    assert (x + t + y + z)[|x|..|x| + |t|] == t;
  }

  /** A line whose first character is that of a rendered ASN is no comment. */
  lemma RenderedNotComment(a: int, line: string)
    requires |line| > 0 && line[0] == ShowInt(a)[0]
    ensures !StartsWith(line, "#")
  {
    if line[0] == '#' { ShowIntChars(a, '#'); }
  }

  /** A provider-customer line with readable end points. */
  lemma ProviderCustomerProcessed(st: Store, line: string, p: int, c: int)
    requires !StartsWith(line, "#") && HasSub(line, "-1") && EndPoints(line) == Ok((p, c))
    ensures Classify(line) == ProviderCustomer
    ensures ProcessLine(st, line) == Ok(AddCustomer(st, p, c))
  {
  }

  /** A peering line with readable end points. */
  lemma PeeringProcessed(st: Store, line: string, a: int, b: int)
    requires !StartsWith(line, "#") && !HasSub(line, "-1") && EndPoints(line) == Ok((a, b))
    ensures Classify(line) == Peering
    ensures ProcessLine(st, line) == Ok(AddPeer(st, a, b))
  {
  }

  /** `p|c|-1|src` (any source text without `|`) makes `c` a customer of `p`
      and nothing else. */
  lemma ProviderCustomerLine(st: Store, p: int, c: int, src: string)
    requires '|' !in src
    ensures var line := ShowInt(p) + "|" + ShowInt(c) + "|" + "-1" + "|" + src;
            && Classify(line) == ProviderCustomer
            && ProcessLine(st, line) == Ok(AddCustomer(st, p, c))
  {
    var head := ShowInt(p) + "|" + ShowInt(c) + "|";
    var line := head + "-1" + "|" + src;
    RenderedEndPoints(p, c, "-1", src);
    assert line[0] == ShowInt(p)[0];
    RenderedNotComment(p, line);
    AtJoint(head, "-1", "|", src);
    ProviderCustomerProcessed(st, line, p, c);
  }

  /** `a|b|0|src` with non-negative ASNs and a source text without `|` or
      `-` makes `a` and `b` peers and nothing else. */
  lemma PeeringLine(st: Store, a: int, b: int, src: string)
    requires a >= 0 && b >= 0 && '|' !in src && '-' !in src
    ensures var line := ShowInt(a) + "|" + ShowInt(b) + "|" + "0" + "|" + src;
            && Classify(line) == Peering
            && ProcessLine(st, line) == Ok(AddPeer(st, a, b))
  {
    var line := ShowInt(a) + "|" + ShowInt(b) + "|" + "0" + "|" + src;
    RenderedEndPoints(a, b, "0", src);
    assert line[0] == ShowInt(a)[0];
    RenderedNotComment(a, line);
    DigitsWithout(ShowInt(a), '-');
    DigitsWithout(ShowInt(b), '-');
    assert '-' !in line;
    NoCharNoSub(line, "-1", 0);
    PeeringProcessed(st, line, a, b);
  }

  /* ---------------------------------------------------------------------
     Shared default sets. `AS.__init__` (base_as.py) takes `set()` defaults
     for its three relationship sets; Python evaluates a default once, so
     every record the converter creates shares the same three sets.
     --------------------------------------------------------------------- */

  /** The converter's state when all records share their relationship sets:
      per-ASN flags plus the one shared set of each kind. */
  datatype SharedStore = SharedStore(flags: map<int, (bool, bool)>,
                                     peers: set<int>, providers: set<int>, customers: set<int>)

  /** What the `AS` object filed under `k` reports. */
  function SharedView(s: SharedStore, k: int): (e: AsRecord)
    requires k in s.flags
    ensures e.asn == k && e.customers == s.customers && e.providers == s.providers
  {
    AsRecord(k, s.flags[k].0, s.flags[k].1, s.peers, s.providers, s.customers)
  }

  /** `_extract_provider_customers` on the shared sets. */
  function AddCustomerShared(s: SharedStore, p: int, c: int): (r: SharedStore)
    ensures r.flags.Keys == s.flags.Keys + {p, c}
    ensures r.customers == s.customers + {c} && r.providers == s.providers + {p}
  {
    var f1 := if p in s.flags then s.flags else s.flags[p := (false, false)];
    var f2 := if c in f1 then f1 else f1[c := (false, false)];
    SharedStore(f2, s.peers, s.providers + {p}, s.customers + {c})
  }

  /** With shared sets, the single line `1|2|-1|src` already makes AS 1 its
      own provider and AS 2 its own customer; with a set per record it makes
      AS 1 a provider of AS 2 and nothing more. */
  lemma SharedDefaultsCounterexample()
    ensures var s := AddCustomerShared(SharedStore(map[], {}, {}, {}), 1, 2);
            && 1 in SharedView(s, 1).providers && 2 in SharedView(s, 2).customers
    ensures var r := AddCustomer(map[], 1, 2);
            && 1 !in r[1].providers && 2 !in r[2].customers
            && r[1].customers == {2} && r[2].providers == {1}
  {
    var r := AddCustomer(map[], 1, 2);
    assert r[1] == Entry(map[], 1).(customers := {2});
    assert r[2] == Entry(map[], 2).(providers := {1});
  }
}
