/**
 * The static table of project detail records and `getProjectBySlug`.
 * Each record keeps only what the site's logic reads: the slug that keys
 * it, the title the navigation menu lists, and the shape of its
 * architecture diagram (component labels and index-pair connections).
 */
module Projects {
  import opened Wrappers
  import opened Js
  import opened Diagram

  datatype ProjectDetail = ProjectDetail(
    slug: string,
    title: string,
    components: seq<string>,
    connections: seq<Connection>)

  const SmartSight := ProjectDetail("reality-hack", "SmartSight: You Learn. We See. We Remember.",
    SmartSightComponents,
    [Connection(0, 1), Connection(1, 2), Connection(1, 3), Connection(3, 4),
     Connection(4, 5), Connection(4, 6)])

  const SmartSightComponents: seq<string> :=
    ["iOS Client (Ray-Ban Meta)", "POST /api/upload-and-analyze", "S3 Upload",
     "Presigned Read URL (1 h)", "GPT-4.1 Vision (direct S3 URL)", "Fire-and-Forget DB Save",
     "WS /ws → OpenAI Realtime (context push)"]

  const ContentMonitor := ProjectDetail("content-monitor", "Web Content Integrity Monitor",
    ContentMonitorComponents,
    [Connection(0, 1), Connection(1, 2), Connection(2, 3), Connection(3, 4), Connection(4, 5)])

  const ContentMonitorComponents: seq<string> :=
    ["Cron Scheduler", "Ingestion (CSV/Net)", "DOM Sanitizer", "Markdown Converter",
     "Snapshot Archivist", "Diff Engine"]

  const AutoBass := ProjectDetail("autobass", "AutoBASS CLI",
    AutoBassComponents,
    [Connection(0, 1), Connection(1, 2), Connection(1, 3), Connection(2, 4), Connection(3, 4)])

  const AutoBassComponents: seq<string> :=
    ["Input (CLI/Config)", "Validation Layer", "Exclusion Parser", "Dry-Run Engine", "Tar/Gzip Core"]

  const PyMark := ProjectDetail("pymark", "PyMark Renderer",
    PyMarkComponents,
    [Connection(0, 1), Connection(1, 2), Connection(1, 3), Connection(2, 4), Connection(3, 4),
     Connection(4, 5)])

  const PyMarkComponents: seq<string> :=
    ["Raw Markdown", "Block Splitter", "Block Parser (H1/List)", "Inline Processor",
     "HTML Sanitizer", "Output HTML"]

  const XrOptimization := ProjectDetail("xr-optimization", "XR Latency Optimization",
    XrOptimizationComponents,
    [Connection(0, 1), Connection(1, 2), Connection(1, 3), Connection(2, 4), Connection(3, 4)])

  const XrOptimizationComponents: seq<string> :=
    ["Master Server", "RTT Calculator", "Client A (Quest 3)", "Client B (Quest 3)", "Local Scheduler"]

  const SecureSbu := ProjectDetail("securesbu", "SecureSBU: Your AI Security Partner",
    SecureSbuComponents,
    [Connection(0, 1), Connection(1, 2), Connection(2, 3), Connection(3, 4), Connection(2, 5),
     Connection(5, 6)])

  const SecureSbuComponents: seq<string> :=
    ["Microsoft Teams Client", "React Frontend", "Node.js/Express API", "NeuralSeek RAG Engine",
     "Policy PDF Database", "Discord Webhook", "Security Team Alert"]

  /** `projectDetails`, in table order. */
  const ProjectDetails: seq<ProjectDetail> :=
    [SmartSight, ContentMonitor, AutoBass, PyMark, XrOptimization, SecureSbu]

  /**
   * `projectDetails.find(p => p.slug === slug)`: a record with the
   * requested slug, or nothing exactly when no record has that slug.
   */
  function GetProjectBySlug(slug: string): (r: Option<ProjectDetail>)
    ensures r.Some? ==> r.value.slug == slug && r.value in ProjectDetails
    ensures r.None? <==> forall i :: 0 <= i < |ProjectDetails| ==> ProjectDetails[i].slug != slug
  {
    Find(ProjectDetails, (p: ProjectDetail) => p.slug == slug)
  }

  /** When several records share a slug, the first of them in the table is the one returned. */
  lemma FirstMatchReturned(slug: string, i: nat)
    requires i < |ProjectDetails| && ProjectDetails[i].slug == slug
    requires forall j :: 0 <= j < i ==> ProjectDetails[j].slug != slug
    ensures GetProjectBySlug(slug) == Some(ProjectDetails[i])
  {
    FindFirst(ProjectDetails, (p: ProjectDetail) => p.slug == slug, i);
  }

  /** The slugs of the table are pairwise distinct. */
  lemma SlugsDistinct()
    ensures forall i, j :: 0 <= i < j < |ProjectDetails| ==> ProjectDetails[i].slug != ProjectDetails[j].slug
  {
  }

  /** Looking up a record's own slug returns that record. */
  lemma OwnSlugFindsRecord(i: nat)
    requires i < |ProjectDetails|
    ensures GetProjectBySlug(ProjectDetails[i].slug) == Some(ProjectDetails[i])
  {
    SlugsDistinct();
    FirstMatchReturned(ProjectDetails[i].slug, i);
  }

  /** Every diagram connection of every record names two existing components. */
  lemma ConnectionsInRange()
    ensures forall i, k :: 0 <= i < |ProjectDetails| && 0 <= k < |ProjectDetails[i].connections| ==>
      && Drawn(|ProjectDetails[i].components|, ProjectDetails[i].connections[k])
  {
  }

  /** Hence no record's diagram skips a connection: each one is drawn. */
  lemma EveryConnectionDrawn(i: nat)
    requires i < |ProjectDetails|
    ensures |DrawnLines(|ProjectDetails[i].components|, ProjectDetails[i].connections)|
         == |ProjectDetails[i].connections|
  {
    ConnectionsInRange();
    AllInRangeAllDrawn(|ProjectDetails[i].components|, ProjectDetails[i].connections, 0);
  }

  /** The detail page route of a slug: `/projects/{slug}`. */
  function ProjectRoute(slug: string): (r: string)
    ensures StartsWith(r, "/projects/") && r[|"/projects/"|..] == slug
  {
    "/projects/" + slug
  }

  /** The slug a `/projects/{slug}` route names, if the path is such a route. */
  function RouteSlug(path: string): (r: Option<string>)
    ensures r.Some? ==> ProjectRoute(r.value) == path
  {
    if StartsWith(path, "/projects/") then Some(path[|"/projects/"|..]) else None
  }

  /** Reading the slug back from a route gives the slug it was built from. */
  lemma RouteRoundTrip(slug: string)
    ensures RouteSlug(ProjectRoute(slug)) == Some(slug)
  {
    assert ProjectRoute(slug)[..|"/projects/"|] == "/projects/";
    assert ProjectRoute(slug)[|"/projects/"|..] == slug;
  }
}
