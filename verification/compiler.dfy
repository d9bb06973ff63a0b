/** The compile cycle as an object: load, check, write to a temporary file, rename, audit
    (crates/config-compiler/src/render.rs). */
module Compiler {
  import opened Strings
  import opened Regex
  import opened Store
  import opened Grouping
  import opened Ucl
  import opened Routing
  import opened Publishing
  import Schema
  import ControlPlane
  import T = Thresholds

  // ------------------------------------------------------------------------
  // Deciding the schema check
  // ------------------------------------------------------------------------

  predicate Fits(p: TenantPolicy) {
    && p.slug != ""
    && "tenant_" <= p.settingsId && |p.settingsId| > 7 && All(p.settingsId[7..], Schema.IsIdChar)
    && p.domains != [] && Schema.NoneEmpty(p.domains)
    && T.AllFinite(p.policy)
  }

  predicate AllFit(ps: seq<TenantPolicy>) { forall i :: 0 <= i < |ps| ==> Fits(ps[i]) }

  lemma FitsDecides(ps: seq<TenantPolicy>)
    ensures AllFit(ps) <==> PassesSchema(ps)
  {
    forall i | 0 <= i < |ps| ensures Fits(ps[i]) <==> Schema.Presentable(ps[i]) {
      var id := ps[i].settingsId;
      LiteralMatches("tenant_", Rep(Cls(Schema.IsIdChar), 1, None), id);
      if "tenant_" <= id { RepClass(Schema.IsIdChar, 1, None, id[7..]); }
    }
    Schema.DocumentPasses(ps);
  }

  // ------------------------------------------------------------------------
  // The compiler as an object
  // ------------------------------------------------------------------------

  /** Where the file system refuses. */
  datatype Fault = NoFault | CreateFails | WriteFails(after: nat) | RenameFails

  datatype CompileResult = Written(tenants: nat) | DbError | SchemaError | IoError

  class ConfigCompiler {
    const path: string
    var settings: Option<string>
    var temp: Option<string>

    constructor (path: string, settings: Option<string>, temp: Option<string>)
      ensures this.path == path && this.settings == settings && this.temp == temp
    {
      this.path, this.settings, this.temp := path, settings, temp;
    }

    /** `write_atomic` */
    method WriteAtomic(contents: string, fault: Fault) returns (ok: bool)
      modifies this
      ensures ok <==> fault == NoFault
      ensures settings == if ok then Some(contents) else old(settings)
      ensures ok ==> temp == None
    {
      if fault == CreateFails { return false; }
      temp := Some("");
      if fault.WriteFails? {
        temp := Some(contents[..if fault.after <= |contents| then fault.after else |contents|]);
        return false;
      }
      temp := Some(contents);
      if fault == RenameFails { return false; }
      settings, temp := temp, None;
      ok := true;
    }

    /** The query: every active domain of an active tenant, in some order. */
    method QueryRows(plane: ControlPlane.Plane) returns (ds: seq<Id>, rows: seq<QueryRow>)
      ensures IsAnswer(plane.State(), ds) && rows == RowsFor(plane.State(), ds)
    {
      var db := plane.State();
      ds := [];
      var left := ActiveDomains(db);
      while left != {}
        invariant left <= ActiveDomains(db)
        invariant forall i :: 0 <= i < |ds| ==> ds[i] in ActiveDomains(db) && ds[i] !in left
        invariant forall d :: d in ActiveDomains(db) ==> d in ds || d in left
        invariant forall i, j :: 0 <= i < j < |ds| ==> ds[i] != ds[j]
      {
        var d :| d in left;
        ds, left := ds + [d], left - {d};
      }
      rows := RowsFor(db, ds);
    }

    method CountDomains(ps: seq<TenantPolicy>) returns (n: nat)
      ensures n == TotalDomains(ps)
    {
      n := 0;
      for i := 0 to |ps|
        invariant n == TotalDomains(ps[..i])
      {
        assert ps[..i + 1][..i] == ps[..i];
        n := n + |ps[i].domains|;
      }
      assert ps[..|ps|] == ps;
    }

    /** `compile_once`; the database may fail in the query or in the audit transaction, the file
        system in between. Only
        after a failed audit is there a new file without its entry, every other failure leaves
        file and store as they were, and on a reachable store the schema check does not fail. */
    method CompileOnce(plane: ControlPlane.Plane, queryFails: bool, fault: Fault, auditFails: bool)
      returns (r: CompileResult, ghost ds: seq<Id>, ghost ps: seq<TenantPolicy>)
      modifies this, plane`audit
      ensures !queryFails ==> Compiles(old(plane.State()), ds, ps)
      ensures queryFails ==> r == DbError
      ensures r.Written? || (r == DbError && !queryFails) ==> settings == Some(RenderUcl(ps)) && PassesSchema(ps)
      ensures r.Written? ==>
              && r.tenants == |ps|
              && plane.audit == old(plane.audit) +
                   [Entry(None, "config-compiler", ConfigCompiled(|ps|, |ServedDomains(old(plane.State()))|), File(path))]
      ensures !r.Written? ==> plane.audit == old(plane.audit)
      ensures queryFails || r.SchemaError? || r.IoError? ==> settings == old(settings)
      ensures Reachable(old(plane.State())) && !queryFails ==>
              r == if fault != NoFault then IoError else if auditFails then DbError else Written(|ps|)
    {
      ds, ps := [], [];
      if queryFails { r := DbError; return; }
      var answer, rows := QueryRows(plane);
      var policies := GroupRows(rows);
      ds, ps := answer, policies;
      FiguresAndCheck(plane.State(), ds, ps);
      if !AllFit(policies) { r := SchemaError; return; }
      var ucl := RenderUclText(policies);
      var written := WriteAtomic(ucl, fault);
      if !written { r := IoError; return; }
      var domains := CountDomains(policies);
      if auditFails { r := DbError; return; }
      plane.RecordCompile(path, |policies|, domains);
      r := Written(|policies|);
    }
  }

  lemma FiguresAndCheck(db: Db, ds: seq<Id>, ps: seq<TenantPolicy>)
    requires Compiles(db, ds, ps)
    ensures TotalDomains(ps) == |ServedDomains(db)|
    ensures AllFit(ps) <==> PassesSchema(ps)
    ensures Reachable(db) ==> AllFit(ps)
  {
    DomainFigure(db, ds, ps);
    FitsDecides(ps);
    if Reachable(db) { OwnOutputPasses(db, ds, ps); }
  }
}
