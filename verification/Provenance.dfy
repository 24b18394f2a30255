/** Ledger check and quarantine of privileged messages (`bus_provenance.py`). */
module Provenance {
  import opened Text
  import opened SurfacePolicy

  /** Confirmation records as (message id, content); the hash is taken to be injective. */
  type Ledger = set<(string, string)>

  predicate Privileged(m: BusMessage)
  {
    m.kind in {"human-decision", "spec-change-approved", "spec-change-rejected", "emergency-halt"}
  }

  predicate Confirmed(stem: string, id: string, content: string, ledger: Ledger)
  {
    (stem, content) in ledger || (id != stem && (id, content) in ledger)
  }

  /** The file is read again; one that cannot be read is unverified. */
  predicate VerifyProvenance(m: BusMessage, files: map<string, BusMessage>, ledger: Ledger)
  {
    m.stem in files && Confirmed(m.stem, m.id, files[m.stem].raw, ledger)
  }

  /** Some record binds this content to the message's file name or to the id it gives itself. */
  ghost predicate OnRecord(m: BusMessage, content: string, ledger: Ledger)
  {
    exists r :: r in ledger && r.1 == content && (r.0 == m.stem || r.0 == m.id)
  }

  /** A record of another content does not vouch for a file, whatever the message said when it was listed. */
  lemma VerifiedExactly(m: BusMessage, files: map<string, BusMessage>, ledger: Ledger)
    ensures VerifyProvenance(m, files, ledger) <==>
              m.stem in files
              && exists r :: r in ledger && r.1 == files[m.stem].raw && (r.0 == m.stem || r.0 == m.id)
  {
    if m.stem in files {
      var content := files[m.stem].raw;
      assert forall r :: r in ledger && r.1 == content && r.0 == m.stem ==> r == (m.stem, content);
      assert forall r :: r in ledger && r.1 == content && r.0 == m.id ==> r == (m.id, content);
    }
  }

  /** The n-th name the quarantine search tries. */
  function Candidate(stem: string, n: nat): string
  {
    if n == 0 then stem + ".md" else stem + "." + Dec(n) + ".md"
  }

  lemma CandidatesDiffer(stem: string, m: nat, n: nat)
    requires m != n
    ensures Candidate(stem, m) != Candidate(stem, n)
  {
    var a, b := Candidate(stem, m), Candidate(stem, n);
    DecIsANumeral(m);
    DecIsANumeral(n);
    if m != 0 && n != 0 {
      assert a[|stem| + 1..|a| - 3] == Dec(m) && b[|stem| + 1..|b| - 3] == Dec(n);
    }
  }

  /** Index of the first candidate from `n` on that is not among `taken`. */
  function FirstFree(taken: set<string>, stem: string, n: nat): nat
    decreases taken
  {
    var c := Candidate(stem, n);
    if c in taken then FirstFree(taken - {c}, stem, n + 1) else n
  }

  lemma {:induction false} FirstFreeIsLeast(taken: set<string>, stem: string, n: nat)
    ensures FirstFree(taken, stem, n) >= n
    ensures Candidate(stem, FirstFree(taken, stem, n)) !in taken
    ensures forall i :: n <= i < FirstFree(taken, stem, n) ==> Candidate(stem, i) in taken
    decreases taken
  {
    var c := Candidate(stem, n);
    if c in taken {
      FirstFreeIsLeast(taken - {c}, stem, n + 1);
      CandidatesDiffer(stem, FirstFree(taken, stem, n), n);
    }
  }

  function QuarantineName(taken: set<string>, stem: string): string
  {
    Candidate(stem, FirstFree(taken, stem, 0))
  }

  /** The search ends on a name no file in quarantine has, so the rename overwrites nothing. */
  lemma QuarantineNameIsFree(taken: set<string>, stem: string)
    ensures QuarantineName(taken, stem) !in taken
  {
    FirstFreeIsLeast(taken, stem, 0);
  }

  /** The file keeps its own name if it can, else it gets the first free number. */
  lemma QuarantineNameExactly(taken: set<string>, stem: string) returns (n: nat)
    ensures stem + ".md" !in taken ==> QuarantineName(taken, stem) == stem + ".md"
    ensures stem + ".md" in taken ==>
              && n > 0 && QuarantineName(taken, stem) == stem + "." + Dec(n) + ".md"
              && forall i :: 0 < i < n ==> stem + "." + Dec(i) + ".md" in taken
  {
    n := FirstFree(taken, stem, 0);
    FirstFreeIsLeast(taken, stem, 0);
    assert Candidate(stem, 0) == stem + ".md";
    assert forall i :: 0 < i < n ==> Candidate(stem, i) == stem + "." + Dec(i) + ".md";
    hide FirstFree, Candidate, Dec;
  }

  /** The name search of `quarantine_message`: it ends because the tried names differ. */
  method FindQuarantineName(taken: set<string>, stem: string) returns (target: string)
    ensures target == QuarantineName(taken, stem)
  {
    target := stem + ".md";
    var n := 1;
    FirstFreeIsLeast(taken, stem, 0);
    while target in taken
      invariant n >= 1 && target == Candidate(stem, n - 1)
      invariant n - 1 <= FirstFree(taken, stem, 0)
      decreases FirstFree(taken, stem, 0) - n
    {
      if n - 1 == FirstFree(taken, stem, 0) {
        assert false;
      }
      target := stem + "." + Dec(n) + ".md";
      n := n + 1;
    }
    if n - 1 < FirstFree(taken, stem, 0) {
      assert false;
    }
  }
}
