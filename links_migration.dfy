/** The data migration that replaces a resume project's three URL columns
    with a `links` list of `{label, url}` objects, and its reverse. */
module LinksMigration {
  import opened Wrappers

  // ---------------------------------------------------------------------
  // Data

  /** The three URL columns that `links` replaces. */
  datatype UrlField = LiveUrl | GithubUrl | BlogPostUrl

  /** The values of the three columns; the empty string is a blank field. */
  datatype UrlFields = UrlFields(liveUrl: string, githubUrl: string, blogPostUrl: string) {
    function Get(f: UrlField): string {
      match f
      case LiveUrl => liveUrl
      case GithubUrl => githubUrl
      case BlogPostUrl => blogPostUrl
    }

    /** `setattr(project, field, url)`. */
    function Set(f: UrlField, url: string): (u: UrlFields)
      ensures u.Get(f) == url
      ensures forall g :: g != f ==> u.Get(g) == Get(g)
    {
      match f
      case LiveUrl => this.(liveUrl := url)
      case GithubUrl => this.(githubUrl := url)
      case BlogPostUrl => this.(blogPostUrl := url)
    }
  }

  /** The three fields as re-added, blank, when the migration is reversed. */
  const Blank := UrlFields("", "", "")

  /** One object of the `links` list: its `label` and `url` keys, None when
      absent. */
  datatype Link = Link(name: Option<string>, url: Option<string>)

  /** `link['url']` on a link that has no `url` key. */
  datatype MigrationError = MissingUrl(name: string)

  /** The forward table: each column and the label of its link, in order. */
  const OldFields: seq<(UrlField, string)> := [(LiveUrl, "live"), (GithubUrl, "github"), (BlogPostUrl, "blog post")]

  /** The backward table `label_to_field`, looked up with `get`: a label
      that is missing or not in the table finds no field. */
  function LabelToField(name: Option<string>): (f: Option<UrlField>)
    ensures forall k :: 0 <= k < |OldFields| && name == Some(OldFields[k].1) ==> f == Some(OldFields[k].0)
    ensures f.Some? ==> name.Some? && (f.value, name.value) in OldFields
  {
    assert "live" != "github" && "live" != "blog post" && "github" != "blog post";
    if name == Some("live") then Some(LiveUrl)
    else if name == Some("github") then Some(GithubUrl)
    else if name == Some("blog post") then Some(BlogPostUrl)
    else None
  }

  // ---------------------------------------------------------------------
  // Forward: columns to links

  /** The links the forward loop has built after visiting `table`: one per
      non-blank column, with the column's label and value. */
  function ForwardLinksOver(u: UrlFields, table: seq<(UrlField, string)>): (links: seq<Link>)
    ensures |links| <= |table|
  {
    if table == [] then []
    else
      var n := |table| - 1;
      var (field, name) := table[n];
      ForwardLinksOver(u, table[..n]) + (if u.Get(field) != "" then [Link(Some(name), Some(u.Get(field)))] else [])
  }

  function ForwardLinks(u: UrlFields): (links: seq<Link>)
    ensures |links| <= 3
  {
    ForwardLinksOver(u, OldFields)
  }

  /** The link a single column contributes. */
  function LinkFor(url: string, name: string): seq<Link> {
    if url != "" then [Link(Some(name), Some(url))] else []
  }

  /** Forward writes the links in the fixed order live, github, blog post,
      skipping each blank column. */
  lemma ForwardLinksOrder(u: UrlFields)
    ensures ForwardLinks(u) == LinkFor(u.liveUrl, "live") + LinkFor(u.githubUrl, "github") + LinkFor(u.blogPostUrl, "blog post")
  {
    assert OldFields[..1][..0] == [];
    assert ForwardLinksOver(u, OldFields[..1]) == LinkFor(u.liveUrl, "live");
    assert OldFields[..2][..1] == OldFields[..1];
    assert ForwardLinksOver(u, OldFields[..2]) == LinkFor(u.liveUrl, "live") + LinkFor(u.githubUrl, "github");
    assert OldFields[..3][..2] == OldFields[..2];
    assert OldFields[..3] == OldFields;
  }

  /** Every forward link carries a non-blank value under its column's
      label, and there are as many links as non-blank columns. */
  lemma ForwardLinksCarryColumns(u: UrlFields)
    ensures |ForwardLinks(u)| == |LinkFor(u.liveUrl, "live")| + |LinkFor(u.githubUrl, "github")| + |LinkFor(u.blogPostUrl, "blog post")|
    ensures forall k :: 0 <= k < |ForwardLinks(u)| ==>
      && ForwardLinks(u)[k].url.Some? && ForwardLinks(u)[k].url.value != ""
      && LabelToField(ForwardLinks(u)[k].name).Some?
      && u.Get(LabelToField(ForwardLinks(u)[k].name).value) == ForwardLinks(u)[k].url.value
  {
    ForwardLinksOrder(u);
    assert (LiveUrl, "live") in OldFields && (GithubUrl, "github") in OldFields && (BlogPostUrl, "blog post") in OldFields;
  }

  // ---------------------------------------------------------------------
  // Backward: links to columns

  /** One iteration of the backward inner loop. */
  function ApplyLink(u: UrlFields, link: Link): (r: Result<UrlFields, MigrationError>)
    ensures r.Err? <==> LabelToField(link.name).Some? && link.url.None?
  {
    match LabelToField(link.name)
    case None => Ok(u)
    case Some(f) => if link.url.Some? then Ok(u.Set(f, link.url.value)) else Err(MissingUrl(link.name.value))
  }

  /** The columns after the backward loop has visited `links`, or the
      error that stopped it. */
  function ApplyLinks(u: UrlFields, links: seq<Link>): (r: Result<UrlFields, MigrationError>)
  {
    if links == [] then Ok(u)
    else
      match ApplyLinks(u, links[..|links| - 1])
      case Err(e) => Err(e)
      case Ok(v) => ApplyLink(v, links[|links| - 1])
  }

  lemma {:induction false} ApplyLinksAppend(u: UrlFields, a: seq<Link>, b: seq<Link>)
    ensures ApplyLinks(u, a + b) == match ApplyLinks(u, a)
                                   case Err(e) => Err(e)
                                   case Ok(v) => ApplyLinks(v, b)
    decreases |b|
  {
    if b == [] {
      assert a + b == a;
    } else {
      var n := |b| - 1;
      ApplyLinksAppend(u, a, b[..n]);
      assert (a + b)[..|a + b| - 1] == a + b[..n];
    }
  }

  predicate MapsTo(link: Link, f: UrlField) {
    LabelToField(link.name) == Some(f)
  }

  /** `links[k]` is the last link whose label names column `f`. */
  predicate LastFor(links: seq<Link>, f: UrlField, k: int) {
    0 <= k < |links| && MapsTo(links[k], f) && forall k' :: k < k' < |links| ==> !MapsTo(links[k'], f)
  }

  predicate NoneFor(links: seq<Link>, f: UrlField) {
    forall k :: 0 <= k < |links| ==> !MapsTo(links[k], f)
  }

  /** The backward direction fails exactly when some link with a known
      label has no url. */
  lemma {:induction false} ApplyLinksFails(u: UrlFields, links: seq<Link>)
    ensures ApplyLinks(u, links).Err? <==>
      exists k :: 0 <= k < |links| && LabelToField(links[k].name).Some? && links[k].url.None?
  {
    if links != [] {
      var n := |links| - 1;
      ApplyLinksFails(u, links[..n]);
      forall k | 0 <= k < n ensures links[..n][k] == links[k] { }
    }
  }

  /** Last link wins: a column named by some link takes the url of the
      last such link, and a column no link names keeps its value. */
  lemma {:induction false} ApplyLinksLastWins(u: UrlFields, links: seq<Link>)
    requires ApplyLinks(u, links).Ok?
    ensures forall f, k :: LastFor(links, f, k) ==>
      links[k].url.Some? && ApplyLinks(u, links).value.Get(f) == links[k].url.value
    ensures forall f :: NoneFor(links, f) ==> ApplyLinks(u, links).value.Get(f) == u.Get(f)
  {
    if links != [] {
      var n := |links| - 1;
      var prefix := links[..n];
      ApplyLinksLastWins(u, prefix);
      var v := ApplyLinks(u, prefix).value;
      var w := ApplyLinks(u, links).value;
      forall f, k | LastFor(links, f, k)
        ensures links[k].url.Some? && w.Get(f) == links[k].url.value
      {
        if k < n {
          assert !MapsTo(links[n], f);
          assert LastFor(prefix, f, k) by {
            forall k' | k < k' < |prefix| ensures !MapsTo(prefix[k'], f) {
              assert prefix[k'] == links[k'];
            }
          }
        }
      }
      forall f | NoneFor(links, f) ensures w.Get(f) == u.Get(f) {
        assert !MapsTo(links[n], f);
        assert NoneFor(prefix, f) by {
          forall k | 0 <= k < |prefix| ensures !MapsTo(prefix[k], f) {
            assert prefix[k] == links[k];
          }
        }
      }
    }
  }

  /** A link whose label is not in the table changes nothing, wherever it
      sits in the list. */
  lemma {:induction false} UnknownLabelIgnored(u: UrlFields, a: seq<Link>, link: Link, b: seq<Link>)
    requires LabelToField(link.name).None?
    ensures ApplyLinks(u, a + [link] + b) == ApplyLinks(u, a + b)
  {
    ApplyLinksAppend(u, a + [link], b);
    ApplyLinksAppend(u, a, b);
    ApplyLinksAppend(u, a, [link]);
    assert ApplyLinks(u, a + [link]) == ApplyLinks(u, a) by {
      match ApplyLinks(u, a)
      case Err(e) =>
      case Ok(v) =>
        assert ApplyLinks(v, [link]) == ApplyLink(v, link) by {
          assert [link][..0] == [];
        }
    }
  }

  /** Round trip: backward over forward's links restores every non-blank
      column and leaves the blank ones as they are; from the blank columns
      the reverse migration re-adds, it restores all three exactly. */
  lemma RoundTrip(w: UrlFields, u: UrlFields)
    ensures ApplyLinks(w, ForwardLinks(u)).Ok?
    ensures forall f :: ApplyLinks(w, ForwardLinks(u)).value.Get(f) == if u.Get(f) != "" then u.Get(f) else w.Get(f)
    ensures ApplyLinks(Blank, ForwardLinks(u)) == Ok(u)
  {
    RoundTripOnto(w, u);
    RoundTripOnto(Blank, u);
  }

  /** Backward over forward's links, onto the columns `w`. */
  lemma RoundTripOnto(w: UrlFields, u: UrlFields)
    ensures ApplyLinks(w, ForwardLinks(u)) ==
      Ok(UrlFields(if u.liveUrl != "" then u.liveUrl else w.liveUrl,
                   if u.githubUrl != "" then u.githubUrl else w.githubUrl,
                   if u.blogPostUrl != "" then u.blogPostUrl else w.blogPostUrl))
  {
    var a, b, c := LinkFor(u.liveUrl, "live"), LinkFor(u.githubUrl, "github"), LinkFor(u.blogPostUrl, "blog post");
    ForwardLinksOrder(u);
    ApplyLinkFor(w, u.liveUrl, "live", LiveUrl);
    var v1 := ApplyLinks(w, a).value;
    ApplyLinkFor(v1, u.githubUrl, "github", GithubUrl);
    var v2 := ApplyLinks(v1, b).value;
    ApplyLinkFor(v2, u.blogPostUrl, "blog post", BlogPostUrl);
    ApplyLinksAppend(w, a, b);
    assert ApplyLinks(w, a + b) == Ok(v2);
    ApplyLinksAppend(w, a + b, c);
    assert ApplyLinks(w, a + b + c) == ApplyLinks(v2, c);
  }

  /** Backward over the link one column contributes. */
  lemma ApplyLinkFor(w: UrlFields, url: string, name: string, f: UrlField)
    requires LabelToField(Some(name)) == Some(f)
    ensures ApplyLinks(w, LinkFor(url, name)) == Ok(if url != "" then w.Set(f, url) else w)
  {
    if url != "" {
      assert LinkFor(url, name)[..0] == [];
    }
  }

  // ---------------------------------------------------------------------
  // The migration on project rows

  class ResumeProject {
    var liveUrl: string
    var githubUrl: string
    var blogPostUrl: string
    var links: seq<Link>

    constructor (liveUrl: string, githubUrl: string, blogPostUrl: string)
      ensures Urls() == UrlFields(liveUrl, githubUrl, blogPostUrl)
      ensures links == []
    {
      this.liveUrl := liveUrl;
      this.githubUrl := githubUrl;
      this.blogPostUrl := blogPostUrl;
      this.links := [];
    }

    function Urls(): (u: UrlFields)
      reads this
      ensures u.liveUrl == liveUrl && u.githubUrl == githubUrl && u.blogPostUrl == blogPostUrl
    {
      UrlFields(liveUrl, githubUrl, blogPostUrl)
    }

    /** `project.links = links; project.save()`. */
    method SaveLinks(newLinks: seq<Link>)
      modifies this
      ensures links == newLinks && Urls() == old(Urls())
    {
      links := newLinks;
    }

    /** The three `setattr` calls that took effect, then `project.save()`. */
    method SaveUrls(u: UrlFields)
      modifies this
      ensures Urls() == u && links == old(links)
    {
      liveUrl, githubUrl, blogPostUrl := u.liveUrl, u.githubUrl, u.blogPostUrl;
    }
  }

  /** The forward inner loop over the table for one project. */
  method BuildLinks(project: ResumeProject) returns (links: seq<Link>)
    ensures links == ForwardLinks(project.Urls())
  {
    links := [];
    var k := 0;
    while k < |OldFields|
      invariant 0 <= k <= |OldFields|
      invariant links == ForwardLinksOver(project.Urls(), OldFields[..k])
    {
      var (field, name) := OldFields[k];
      var url := project.Urls().Get(field);
      if url != "" {
        links := links + [Link(Some(name), Some(url))];
      }
      assert OldFields[..k + 1][..k] == OldFields[..k];
      k := k + 1;
    }
    assert OldFields[..k] == OldFields;
  }

  /** `migrate_links_forward`: every project gets the links of its columns. */
  method MigrateLinksForward(projects: seq<ResumeProject>)
    modifies projects
    ensures forall j :: 0 <= j < |projects| ==>
      projects[j].links == ForwardLinks(old(projects[j].Urls())) && projects[j].Urls() == old(projects[j].Urls())
  {
    var i := 0;
    while i < |projects|
      invariant 0 <= i <= |projects|
      invariant forall j :: 0 <= j < |projects| ==> projects[j].Urls() == old(projects[j].Urls())
      invariant forall j :: 0 <= j < i ==> projects[j].links == ForwardLinks(projects[j].Urls())
    {
      var links := BuildLinks(projects[i]);
      projects[i].SaveLinks(links);
      i := i + 1;
    }
  }

  /** An error stops the backward loop for good. */
  lemma {:induction false} ApplyLinksErrorSticks(u: UrlFields, links: seq<Link>, k: nat)
    requires k < |links| && ApplyLinks(u, links[..k + 1]).Err?
    ensures ApplyLinks(u, links) == ApplyLinks(u, links[..k + 1])
    decreases |links|
  {
    if k + 1 < |links| {
      var n := |links| - 1;
      assert links[..n][..k + 1] == links[..k + 1];
      ApplyLinksErrorSticks(u, links[..n], k);
    } else {
      assert links[..k + 1] == links;
    }
  }

  /** The backward inner loop over one project's links, on the in-memory
      copy of its columns. */
  method RestoreUrls(project: ResumeProject) returns (r: Result<UrlFields, MigrationError>)
    ensures r == ApplyLinks(project.Urls(), project.links)
  {
    var u := project.Urls();
    var k := 0;
    while k < |project.links|
      invariant 0 <= k <= |project.links|
      invariant ApplyLinks(project.Urls(), project.links[..k]) == Ok(u)
    {
      var link := project.links[k];
      assert project.links[..k + 1][..k] == project.links[..k];
      var field := LabelToField(link.name);
      if field.Some? {
        if link.url.None? {
          ApplyLinksErrorSticks(project.Urls(), project.links, k);
          return Err(MissingUrl(link.name.value));
        }
        u := u.Set(field.value, link.url.value);
      }
      k := k + 1;
    }
    assert project.links[..k] == project.links;
    r := Ok(u);
  }

  /** `migrate_links_backward`: each project's columns are rebuilt from its
      links. A link with a known name and no url stops the migration:
      earlier projects stay saved, that one and later ones are untouched. */
  method MigrateLinksBackward(projects: seq<ResumeProject>) returns (failure: Option<MigrationError>, ghost stoppedAt: nat)
    requires Distinct(projects)
    modifies projects
    ensures forall j :: 0 <= j < |projects| ==> projects[j].links == old(projects[j].links)
    ensures failure.None? ==> stoppedAt == |projects|
    ensures stoppedAt <= |projects|
    ensures forall j :: 0 <= j < stoppedAt ==>
      ApplyLinks(old(projects[j].Urls()), projects[j].links).Ok?
      && projects[j].Urls() == ApplyLinks(old(projects[j].Urls()), projects[j].links).value
    ensures forall j :: stoppedAt <= j < |projects| ==> projects[j].Urls() == old(projects[j].Urls())
    ensures failure.Some? ==>
      && stoppedAt < |projects|
      && ApplyLinks(old(projects[stoppedAt].Urls()), projects[stoppedAt].links).Err?
      && failure == Some(ApplyLinks(old(projects[stoppedAt].Urls()), projects[stoppedAt].links).error)
  {
    var i := 0;
    while i < |projects|
      invariant 0 <= i <= |projects|
      invariant forall j :: 0 <= j < |projects| ==> projects[j].links == old(projects[j].links)
      invariant forall j :: 0 <= j < i ==>
        ApplyLinks(old(projects[j].Urls()), projects[j].links).Ok?
        && projects[j].Urls() == ApplyLinks(old(projects[j].Urls()), projects[j].links).value
      invariant forall j :: i <= j < |projects| ==> projects[j].Urls() == old(projects[j].Urls())
    {
      var r := RestoreUrls(projects[i]);
      if r.Err? {
        return Some(r.error), i;
      }
      projects[i].SaveUrls(r.value);
      i := i + 1;
    }
    failure, stoppedAt := None, i;
  }
}
