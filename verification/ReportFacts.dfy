/** What a list of diagnostics reports, by code and place. */
module ReportFacts {
  import opened Diagnostics

  /** Some diagnostic of the list has this code and points there. */
  ghost predicate Reports(ds: seq<Diagnostic>, code: Code, at: Location) {
    exists d :: d in ds && d.code == code && d.at == at
  }

  /** All are about one document and of these codes. */
  predicate Own(ds: seq<Diagnostic>, base: string, codes: set<Code>) {
    forall d :: d in ds ==> d.at.base == base && d.code in codes
  }

  lemma OwnSum(a: seq<Diagnostic>, b: seq<Diagnostic>, base: string, codes: set<Code>, more: set<Code>)
    requires Own(a, base, codes) && Own(b, base, more)
    ensures Own(a + b, base, codes + more)
  {
  }

  lemma OwnMore(ds: seq<Diagnostic>, base: string, codes: set<Code>, more: set<Code>)
    requires Own(ds, base, codes) && codes <= more
    ensures Own(ds, base, more)
  {
  }

  lemma ReportsSum(a: seq<Diagnostic>, b: seq<Diagnostic>, code: Code, at: Location)
    ensures Reports(a + b, code, at) <==> Reports(a, code, at) || Reports(b, code, at)
  {
    if d :| d in a && d.code == code && d.at == at { assert d in a + b; }
    if d :| d in b && d.code == code && d.at == at { assert d in a + b; }
  }

  lemma ReportsOne(d: Diagnostic, code: Code, at: Location)
    ensures Reports([d], code, at) <==> d.code == code && d.at == at
  {
    assert d in [d];
  }

  lemma OtherCodes(ds: seq<Diagnostic>, base: string, codes: set<Code>, code: Code, at: Location)
    requires Own(ds, base, codes) && (code !in codes || at.base != base)
    ensures !Reports(ds, code, at)
  {
  }

  /** What a list adds to another that reports the same. */
  lemma SameReports(a: seq<Diagnostic>, b: seq<Diagnostic>, code: Code, at: Location)
    requires forall d: Diagnostic :: d.code == code && d.at == at ==> (d in a <==> d in b)
    ensures Reports(a, code, at) <==> Reports(b, code, at)
  {
    if d :| d in a && d.code == code && d.at == at { assert d in b; }
    if d :| d in b && d.code == code && d.at == at { assert d in a; }
  }
}
