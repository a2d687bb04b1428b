/**
  * Where `EmailSender` sends a message: the recipient's domain, and the hosts
  * `getMXHosts` finds for it. The MX records of the answer are kept, stably
  * ordered by preference (lowest first, as section 5.1 of RFC 5321 asks), and
  * replaced by their exchange names; only when that gives no host at all are
  * the domain's A records used.
  */
module MxLookup {
  import opened Wrappers
  import opened JavaStrings

  /** A resource record of a DNS answer, reduced to what `getMXHosts` reads. */
  datatype DnsRecord =
    | MX(priority: int, target: string)   // getPriority(), getTarget().toString(true)
    | A(address: string)                  // getAddress().getHostAddress()
    | OtherRecord                         // any other record type in the answer

  /**
    * What `lookup.run()` gives: whether `getResult()` is SUCCESSFUL, and the
    * records (a null array is the empty sequence).
    */
  datatype LookupAnswer = LookupAnswer(successful: bool, records: seq<DnsRecord>)

  /**
    * The resolver: whether `new Lookup(domain, type)` accepts the name (it
    * throws TextParseException otherwise), and the MX and A answers per name.
    */
  datatype Dns = Dns(parses: string -> bool, mx: string -> LookupAnswer, a: string -> LookupAnswer)

  /** `recipient.substring(recipient.indexOf("@") + 1)`: the part after the first '@', or all of it. */
  function Domain(recipient: string): (d: string)
    ensures '@' !in recipient ==> d == recipient
    ensures '@' in recipient ==>
      exists i | 0 <= i < |recipient| :: recipient[i] == '@' && '@' !in recipient[..i] && d == recipient[i + 1..]
  {
    var i := IndexOf(recipient, '@');
    assert i >= 0 ==> recipient[i] == '@' && '@' !in recipient[..i];
    recipient[i + 1..]
  }

  /** The MX records of an answer, in answer order (the `instanceof MXRecord` loop). */
  function MxRecords(records: seq<DnsRecord>): (r: seq<DnsRecord>)
    ensures forall i | 0 <= i < |r| :: r[i].MX?
    ensures forall x :: x in r <==> x in records && x.MX?
    decreases |records|
  {
    if records == [] then []
    else
      assert records == records[..|records| - 1] + [records[|records| - 1]];
      MxRecords(records[..|records| - 1]) + (if records[|records| - 1].MX? then [records[|records| - 1]] else [])
  }

  /** The exchange names of MX records, in order. */
  function Targets(mxs: seq<DnsRecord>): seq<string>
    decreases |mxs|
  {
    if mxs == [] then []
    else Targets(mxs[..|mxs| - 1]) + (if mxs[|mxs| - 1].MX? then [mxs[|mxs| - 1].target] else [])
  }

  /** The addresses of the A records of an answer, in answer order. */
  function Addresses(records: seq<DnsRecord>): seq<string>
    decreases |records|
  {
    if records == [] then []
    else Addresses(records[..|records| - 1]) + (if records[|records| - 1].A? then [records[|records| - 1].address] else [])
  }

  /** Preference values never decrease along `s`. */
  predicate SortedByPriority(s: seq<DnsRecord>)
    requires forall i | 0 <= i < |s| :: s[i].MX?
  {
    forall i, j | 0 <= i < j < |s| :: s[i].priority <= s[j].priority
  }

  /** The MX records of `s` whose preference is `p`, in order. */
  function WithPriority(s: seq<DnsRecord>, p: int): seq<DnsRecord>
    decreases |s|
  {
    if s == [] then []
    else WithPriority(s[..|s| - 1], p) + (if s[|s| - 1].MX? && s[|s| - 1].priority == p then [s[|s| - 1]] else [])
  }

  /** `x` placed after every record whose preference is not greater than its own. */
  function Insert(x: DnsRecord, s: seq<DnsRecord>): (r: seq<DnsRecord>)
    requires x.MX? && forall i | 0 <= i < |s| :: s[i].MX?
    ensures |r| == |s| + 1 && multiset(r) == multiset(s) + multiset{x}
    ensures forall i | 0 <= i < |r| :: r[i].MX?
    decreases |s|
  {
    if s == [] then [x]
    else if x.priority < s[0].priority then [x] + s
    else
      assert s == [s[0]] + s[1..];
      [s[0]] + Insert(x, s[1..])
  }

  /** `mxRecords.sort(Comparator.comparingInt(MXRecord::getPriority))`: a stable sort. */
  function SortByPriority(s: seq<DnsRecord>): (r: seq<DnsRecord>)
    requires forall i | 0 <= i < |s| :: s[i].MX?
    ensures |r| == |s| && multiset(r) == multiset(s)
    ensures forall i | 0 <= i < |r| :: r[i].MX?
    decreases |s|
  {
    if s == [] then []
    else
      assert s == s[..|s| - 1] + [s[|s| - 1]];
      Insert(s[|s| - 1], SortByPriority(s[..|s| - 1]))
  }

  /** The hosts `getMXHosts(domain)` returns, or None where it throws TextParseException. */
  function CandidateHosts(dns: Dns, domain: string): Option<seq<string>> {
    if !dns.parses(domain) then None
    else
      var mxHosts := MxHosts(dns.mx(domain));
      if mxHosts != [] then Some(mxHosts)
      else
        var answer := dns.a(domain);
        Some(if answer.successful then Addresses(answer.records) else [])
  }

  /** The hosts from the MX answer alone. */
  function MxHosts(answer: LookupAnswer): seq<string> {
    if answer.successful then
      Targets(SortByPriority(MxRecords(answer.records)))
    else []
  }

  lemma {:induction false} InsertSorted(x: DnsRecord, s: seq<DnsRecord>)
    requires x.MX? && forall i | 0 <= i < |s| :: s[i].MX?
    requires SortedByPriority(s)
    ensures SortedByPriority(Insert(x, s))
    decreases |s|
  {
    if s != [] && x.priority >= s[0].priority {
      InsertSorted(x, s[1..]);
      var t := Insert(x, s[1..]);
      forall k | 0 <= k < |t|
        ensures s[0].priority <= t[k].priority
      {
        assert t[k] in multiset(t);
        if t[k] != x {
          assert t[k] in multiset(s[1..]);
        }
      }
    }
  }

  /** Records of the same preference keep their order when `x` is inserted. */
  lemma {:induction false} InsertStable(x: DnsRecord, s: seq<DnsRecord>, p: int)
    requires x.MX? && forall i | 0 <= i < |s| :: s[i].MX?
    requires SortedByPriority(s)
    ensures WithPriority(Insert(x, s), p) == WithPriority(s, p) + (if x.priority == p then [x] else [])
    decreases |s|, 1
  {
    if s == [] {
      WithPriorityPrepend(x, [], p);
      assert [x] + [] == [x];
    } else if x.priority < s[0].priority {
      WithPriorityPrepend(x, s, p);
      if x.priority == p {
        WithPriorityAbove(s, x.priority);
      }
    } else {
      InsertStableAfterHead(x, s, p);
    }
  }

  /** The case where `x` goes after the first record. */
  lemma {:induction false} InsertStableAfterHead(x: DnsRecord, s: seq<DnsRecord>, p: int)
    requires x.MX? && forall i | 0 <= i < |s| :: s[i].MX?
    requires SortedByPriority(s) && s != [] && x.priority >= s[0].priority
    ensures WithPriority(Insert(x, s), p) == WithPriority(s, p) + (if x.priority == p then [x] else [])
    decreases |s|, 0
  {
    var rest := s[1..];
    var inserted := Insert(x, rest);
    var tail := if x.priority == p then [x] else [];
    var head := if s[0].MX? && s[0].priority == p then [s[0]] else [];
    SortedTail(s);
    InsertStable(x, rest, p);
    assert WithPriority(inserted, p) == WithPriority(rest, p) + tail;
    assert Insert(x, s) == [s[0]] + inserted;
    WithPriorityPrepend(s[0], inserted, p);
    assert WithPriority(Insert(x, s), p) == head + WithPriority(inserted, p);
    WithPriorityCons(s, p);
    AppendAssociates(head, WithPriority(rest, p), tail);
  }

  lemma AppendAssociates<T>(a: seq<T>, b: seq<T>, c: seq<T>)
    ensures a + (b + c) == (a + b) + c
  {
  }

  /** Dropping the first record of a sorted sequence keeps it sorted. */
  lemma SortedTail(s: seq<DnsRecord>)
    requires s != [] && forall i | 0 <= i < |s| :: s[i].MX?
    requires SortedByPriority(s)
    ensures SortedByPriority(s[1..])
  {
    var rest := s[1..];
    forall i, j | 0 <= i < j < |rest| ensures rest[i].priority <= rest[j].priority {
      assert rest[i] == s[i + 1] && rest[j] == s[j + 1];
    }
  }

  /** `WithPriority` read from the front. */
  lemma WithPriorityCons(s: seq<DnsRecord>, p: int)
    requires s != []
    ensures WithPriority(s, p) == (if s[0].MX? && s[0].priority == p then [s[0]] else []) + WithPriority(s[1..], p)
  {
    WithPriorityPrepend(s[0], s[1..], p);
    assert [s[0]] + s[1..] == s;
  }

  lemma {:induction false} WithPriorityPrepend(y: DnsRecord, s: seq<DnsRecord>, p: int)
    ensures WithPriority([y] + s, p) == (if y.MX? && y.priority == p then [y] else []) + WithPriority(s, p)
    decreases |s|
  {
    if s != [] {
      var t := [y] + s;
      var last := s[|s| - 1];
      var head := if y.MX? && y.priority == p then [y] else [];
      var tail := if last.MX? && last.priority == p then [last] else [];
      assert t[..|t| - 1] == [y] + s[..|s| - 1] && t[|t| - 1] == last;
      WithPriorityPrepend(y, s[..|s| - 1], p);
      AppendAssociates(head, WithPriority(s[..|s| - 1], p), tail);
    } else {
      assert [y] + s == [y];
      assert [y][..0] == [];
    }
  }

  lemma {:induction false} WithPriorityAbove(s: seq<DnsRecord>, q: int)
    requires forall i | 0 <= i < |s| :: s[i].MX?
    requires SortedByPriority(s) && (s != [] ==> q < s[0].priority)
    ensures WithPriority(s, q) == []
    decreases |s|
  {
    if s != [] {
      WithPriorityAbove(s[..|s| - 1], q);
    }
  }

  /** The sort orders MX records by preference. */
  lemma {:induction false} SortByPriorityIsSorted(s: seq<DnsRecord>)
    requires forall i | 0 <= i < |s| :: s[i].MX?
    ensures SortedByPriority(SortByPriority(s))
    decreases |s|
  {
    if s != [] {
      SortByPriorityIsSorted(s[..|s| - 1]);
      InsertSorted(s[|s| - 1], SortByPriority(s[..|s| - 1]));
    }
  }

  /** The sort keeps the records of each preference in answer order. */
  lemma {:induction false} SortByPriorityIsStable(s: seq<DnsRecord>, p: int)
    requires forall i | 0 <= i < |s| :: s[i].MX?
    ensures WithPriority(SortByPriority(s), p) == WithPriority(s, p)
    decreases |s|
  {
    if s != [] {
      var init := s[..|s| - 1];
      var x := s[|s| - 1];
      SortByPriorityIsStable(init, p);
      SortByPriorityIsSorted(init);
      InsertStable(x, SortByPriority(init), p);
      calc {
        WithPriority(SortByPriority(s), p);
        WithPriority(Insert(x, SortByPriority(init)), p);
        WithPriority(SortByPriority(init), p) + (if x.priority == p then [x] else []);
        WithPriority(init, p) + (if x.priority == p then [x] else []);
        WithPriority(s, p);
      }
    }
  }

  lemma {:induction false} TargetsLength(mxs: seq<DnsRecord>)
    requires forall i | 0 <= i < |mxs| :: mxs[i].MX?
    ensures |Targets(mxs)| == |mxs|
    ensures forall i | 0 <= i < |mxs| :: Targets(mxs)[i] == mxs[i].target
    decreases |mxs|
  {
    if mxs != [] {
      TargetsLength(mxs[..|mxs| - 1]);
    }
  }

  /**
    * A successful MX answer with at least one MX record decides the hosts:
    * one per MX record, ordered by preference; the A records are not looked
    * at.
    */
  lemma MxAnswerDecides(dns: Dns, domain: string)
    requires dns.parses(domain)
    requires dns.mx(domain).successful && exists x :: x in dns.mx(domain).records && x.MX?
    ensures var mxs := MxRecords(dns.mx(domain).records);
      && CandidateHosts(dns, domain).Some?
      && |CandidateHosts(dns, domain).value| == |mxs|
      && exists ordered: seq<DnsRecord> ::
           && (forall i | 0 <= i < |ordered| :: ordered[i].MX?)
           && SortedByPriority(ordered) && multiset(ordered) == multiset(mxs)
           && (forall p :: WithPriority(ordered, p) == WithPriority(dns.mx(domain).records, p))
           && CandidateHosts(dns, domain).value == Targets(ordered)
  {
    var records := dns.mx(domain).records;
    var mxs := MxRecords(records);
    var x :| x in records && x.MX?;
    assert x in mxs;
    var ordered := SortByPriority(mxs);
    TargetsLength(ordered);
    OrderedMxRecords(records);
  }

  /** The MX records sorted by preference keep, within each preference, the answer's order. */
  lemma OrderedMxRecords(records: seq<DnsRecord>)
    ensures var ordered := SortByPriority(MxRecords(records));
      && SortedByPriority(ordered)
      && forall p :: WithPriority(ordered, p) == WithPriority(records, p)
  {
    var mxs := MxRecords(records);
    SortByPriorityIsSorted(mxs);
    forall p
      ensures WithPriority(SortByPriority(mxs), p) == WithPriority(records, p)
    {
      SortByPriorityIsStable(mxs, p);
      MxRecordsKeepOrder(records, p);
    }
  }

  /**
    * `MxRecords` keeps the answer's order and multiplicity: it is the filter
    * that distributes over concatenation and keeps a single record exactly
    * when it is an MX record.
    */
  lemma {:induction false} MxRecordsAppend(a: seq<DnsRecord>, b: seq<DnsRecord>)
    ensures MxRecords(a + b) == MxRecords(a) + MxRecords(b)
    ensures forall x :: MxRecords([x]) == if x.MX? then [x] else []
    decreases |b|
  {
    if b == [] {
      assert a + b == a;
    } else {
      var last := b[|b| - 1];
      assert (a + b)[..|a + b| - 1] == a + b[..|b| - 1] && (a + b)[|a + b| - 1] == last;
      MxRecordsAppend(a, b[..|b| - 1]);
      AppendAssociates(MxRecords(a), MxRecords(b[..|b| - 1]), if last.MX? then [last] else []);
    }
    forall x
      ensures MxRecords([x]) == if x.MX? then [x] else []
    {
      assert [x][..0] == [];
    }
  }

  /** The MX records of each preference keep their answer order, duplicates included. */
  lemma {:induction false} MxRecordsKeepOrder(records: seq<DnsRecord>, p: int)
    ensures WithPriority(MxRecords(records), p) == WithPriority(records, p)
    decreases |records|
  {
    if records != [] {
      var init := records[..|records| - 1];
      var last := records[|records| - 1];
      var tail := if last.MX? then [last] else [];
      MxRecordsKeepOrder(init, p);
      WithPriorityAppend(MxRecords(init), tail, p);
      assert WithPriority(tail, p) == (if last.MX? && last.priority == p then [last] else []) by {
        if last.MX? {
          assert [last][..0] == [];
        }
      }
    }
  }

  /** `WithPriority` distributes over concatenation. */
  lemma {:induction false} WithPriorityAppend(a: seq<DnsRecord>, b: seq<DnsRecord>, p: int)
    ensures WithPriority(a + b, p) == WithPriority(a, p) + WithPriority(b, p)
    decreases |b|
  {
    if b == [] {
      assert a + b == a;
    } else {
      var last := b[|b| - 1];
      assert (a + b)[..|a + b| - 1] == a + b[..|b| - 1] && (a + b)[|a + b| - 1] == last;
      WithPriorityAppend(a, b[..|b| - 1], p);
      AppendAssociates(WithPriority(a, p), WithPriority(b[..|b| - 1], p),
                       if last.MX? && last.priority == p then [last] else []);
    }
  }

  /**
    * The A records are used exactly when the MX answer yields no host: then
    * the hosts are the A addresses of a successful A answer, or none.
    */
  lemma AFallback(dns: Dns, domain: string)
    requires dns.parses(domain)
    ensures MxHosts(dns.mx(domain)) == [] <==> !dns.mx(domain).successful || MxRecords(dns.mx(domain).records) == []
    ensures MxHosts(dns.mx(domain)) == [] ==>
      CandidateHosts(dns, domain) == Some(if dns.a(domain).successful then Addresses(dns.a(domain).records) else [])
  {
    var answer := dns.mx(domain);
    if answer.successful {
      var mxs := MxRecords(answer.records);
      TargetsLength(SortByPriority(mxs));
    }
  }

  /**
    * `getMXHosts`: the hosts of the MX answer; with none, the addresses of
    * the A answer. A name the resolver refuses is reported as None.
    */
  method GetMXHosts(dns: Dns, domain: string) returns (hosts: Option<seq<string>>)
    ensures hosts == CandidateHosts(dns, domain)
  {
    if !dns.parses(domain) {
      return None;
    }
    var found := CollectMxHosts(dns.mx(domain));
    if found == [] {
      found := CollectAddresses(dns.a(domain));
    }
    return Some(found);
  }

  /** The first half of `getMXHosts`: keep the MX records, sort them, take their exchange names. */
  method CollectMxHosts(answer: LookupAnswer) returns (hosts: seq<string>)
    ensures hosts == MxHosts(answer)
  {
    hosts := [];
    if answer.successful && |answer.records| > 0 {
      var mxRecords: seq<DnsRecord> := [];
      var i := 0;
      while i < |answer.records|
        invariant 0 <= i <= |answer.records|
        invariant mxRecords == MxRecords(answer.records[..i])
      {
        assert answer.records[..i + 1][..i] == answer.records[..i];
        if answer.records[i].MX? {
          mxRecords := mxRecords + [answer.records[i]];
        }
        i := i + 1;
      }
      assert answer.records[..i] == answer.records;
      mxRecords := SortByPriority(mxRecords);
      var j := 0;
      while j < |mxRecords|
        invariant 0 <= j <= |mxRecords|
        invariant hosts == Targets(mxRecords[..j])
      {
        assert mxRecords[..j + 1][..j] == mxRecords[..j];
        hosts := hosts + [mxRecords[j].target];
        j := j + 1;
      }
      assert mxRecords[..j] == mxRecords;
    }
  }

  /** The A-record fallback of `getMXHosts`: the addresses of a successful answer. */
  method CollectAddresses(answer: LookupAnswer) returns (hosts: seq<string>)
    ensures hosts == (if answer.successful then Addresses(answer.records) else [])
  {
    hosts := [];
    if answer.successful && |answer.records| > 0 {
      var i := 0;
      while i < |answer.records|
        invariant 0 <= i <= |answer.records|
        invariant hosts == Addresses(answer.records[..i])
      {
        assert answer.records[..i + 1][..i] == answer.records[..i];
        if answer.records[i].A? {
          hosts := hosts + [answer.records[i].address];
        }
        i := i + 1;
      }
      assert answer.records[..i] == answer.records;
    }
  }
}
