/**
 * The two computations of the admin dashboard page
 * (CampusHb/src/pages/AdminDashboard.jsx) that reach the server: the skills
 * list sent with a new job, and the export link opened in a new tab.
 */
module AdminDashboard {
  import opened Wrappers
  import opened Text
  import opened Seqs
  import Models
  import AuthMiddleware

  /** `skills ? skills.split(',').map(s => s.trim()) : []` */
  function ParseSkills(skills: Option<string>): (r: seq<string>)
    ensures !Truthy(skills) ==> r == []
    ensures Truthy(skills) ==> |r| == Occurrences(skills.value, ',') + 1
    ensures Truthy(skills) ==> forall i :: 0 <= i < |r| ==> r[i] == Trim(Split(skills.value, ',')[i])
    ensures forall i :: 0 <= i < |r| ==> ',' !in r[i]
  {
    if Truthy(skills) then
      var pieces := Split(skills.value, ',');
      var r := Map(pieces, Trim);
      TrimmedPiecesHaveNoComma(pieces, r);
      r
    else []
  }

  /** No skill starts or ends with whitespace. */
  lemma SkillsAreTrimmed(skills: Option<string>, i: nat)
    requires i < |ParseSkills(skills)|
    ensures var s := ParseSkills(skills)[i];
      s != [] ==> !IsSpace(s[0]) && !IsSpace(s[|s| - 1])
  {
    var piece := Split(skills.value, ',')[i];
    assert ParseSkills(skills)[i] == Trim(piece);
  }

  lemma TrimmedPiecesHaveNoComma(pieces: seq<string>, trimmed: seq<string>)
    requires |trimmed| == |pieces|
    requires forall i :: 0 <= i < |pieces| ==> ',' !in pieces[i] && trimmed[i] == Trim(pieces[i])
    ensures forall i :: 0 <= i < |trimmed| ==> ',' !in trimmed[i]
  {
    forall i | 0 <= i < |trimmed| ensures ',' !in trimmed[i] {
      if ',' in trimmed[i] { TrimKeepsChars(pieces[i], ','); }
    }
  }

  /** A skills string without whitespace comes back from parsing and re-joining with commas. */
  lemma SkillsRoundTrip(skills: string)
    requires skills != ""
    requires forall k :: 0 <= k < |skills| ==> !IsSpace(skills[k])
    ensures Text.Join(ParseSkills(Some(skills)), ',') == skills
  {
    var pieces := Split(skills, ',');
    var r := ParseSkills(Some(skills));
    forall i | 0 <= i < |pieces| ensures r[i] == pieces[i] {
      var p := pieces[i];
      if p != [] {
        assert p[0] in p;
        SplitKeepsChars(skills, ',', i, p[0]);
        assert p[|p| - 1] in p;
        SplitKeepsChars(skills, ',', i, p[|p| - 1]);
      }
      TrimUnpadded(p);
    }
    assert r == pieces;
    JoinSplit(skills, ',');
  }

  /** The server origin the page hardcodes into the export link. */
  const ServerOrigin: string := "http://localhost:5000"
  const ExportEndpoint: string := ServerOrigin + "/api/applications/export/"

  /** A template literal's rendering of a possibly missing string: `${null}` reads "null". */
  function TemplateText(value: Option<string>): string {
    match value
    case Some(s) => s
    case None => "null"
  }

  /** The export link: the job's export endpoint with the stored token as the `token` query parameter. */
  function ExportLink(jobId: string, storedToken: Option<string>): (r: string)
    ensures StartsWith(r, ExportEndpoint + jobId)
    ensures EndsWith(r, "?token=" + TemplateText(storedToken))
    ensures |r| == |ExportEndpoint| + |jobId| + |"?token="| + |TemplateText(storedToken)|
  {
    ExportEndpoint + jobId + "?token=" + TemplateText(storedToken)
  }

  lemma EndpointHasNoQuery()
    ensures '?' !in ExportEndpoint
  {
    assert '?' !in ServerOrigin;
    assert '?' !in "/api/applications/export/";
  }

  /**
   * For a job id without '?', the link's path ends at its first '?', and
   * what follows is exactly "?token=" and the stored token's text.
   */
  lemma ExportLinkQuery(jobId: string, storedToken: Option<string>)
    requires '?' !in jobId
    ensures var link := ExportLink(jobId, storedToken);
      var path := Split(link, '?')[0];
      path == ExportEndpoint + jobId && link[|path|..] == "?token=" + TemplateText(storedToken)
  {
    var path := ExportEndpoint + jobId;
    var query := "token=" + TemplateText(storedToken);
    EndpointHasNoQuery();
    assert ExportLink(jobId, storedToken) == path + ['?'] + query;
    SplitAfterWord(path, '?', query);
  }

  /** The characters of a JWT and of an ObjectId's hex text, which pass through a URL query unchanged. */
  predicate UrlSafe(s: string) {
    forall k :: 0 <= k < |s| ==>
      'A' <= s[k] <= 'Z' || 'a' <= s[k] <= 'z' || '0' <= s[k] <= '9' || s[k] == '-' || s[k] == '_' || s[k] == '.'
  }

  lemma UrlSafeHasNoQuery(s: string)
    requires UrlSafe(s)
    ensures '?' !in s
  {
    forall k | 0 <= k < |s| ensures s[k] != '?' { }
  }

  /**
   * A tab opened from the export link sends no Authorization header, so the
   * middleware takes the token read out of the link's query: a stored token
   * reaches verification, and a missing one arrives as the text "null",
   * which is rejected as invalid rather than as missing. The job id and the
   * token are URL-safe, as the server's ids and tokens are, so the browser
   * and the query parser take the text after "?token=" as it is.
   */
  lemma ExportLinkTokenReachesVerification(jobId: string, storedToken: Option<string>, verify: string -> Option<Models.Claims>)
    requires UrlSafe(jobId)
    requires storedToken.Some? ==> storedToken.value != "" && UrlSafe(storedToken.value)
    ensures var link := ExportLink(jobId, storedToken);
      var start := |Split(link, '?')[0]| + |"?token="|;
      start <= |link| &&
      var token := link[start..];
      var r := AuthMiddleware.Authenticate(None, Some(token), verify);
      && token == TemplateText(storedToken)
      && (r.Authenticated? <==> verify(token).Some?)
      && (storedToken.None? && verify("null").None? ==> r == AuthMiddleware.Rejected(401, AuthMiddleware.InvalidTokenMessage))
  {
    UrlSafeHasNoQuery(jobId);
    ExportLinkQuery(jobId, storedToken);
    var link := ExportLink(jobId, storedToken);
    var path := Split(link, '?')[0];
    assert link[|path| + 7..] == link[|path|..][7..];
  }
}
