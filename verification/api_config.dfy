/**
 * URL helpers of the frontend (src/config/api.js): API endpoint URLs relative
 * to the page or to a configured base URL, and links to uploaded files.
 */
module ApiConfig {
  import opened Wrappers
  import opened Text

  /** The endpoint with at most one leading slash removed. */
  function CleanEndpoint(endpoint: string): (r: string)
    ensures StartsWith(endpoint, "/") ==> "/" + r == endpoint
    ensures !StartsWith(endpoint, "/") ==> r == endpoint
  {
    if StartsWith(endpoint, "/") then endpoint[1..] else endpoint
  }

  /**
   * getApiUrl with VITE_API_URL as `configured`: when it is unset or empty
   * the page-relative path "/api/<endpoint>"; otherwise "<base>/<endpoint>";
   * in both cases with one leading slash of the endpoint dropped.
   */
  function GetApiUrl(configured: Option<string>, endpoint: string): (r: string)
    ensures !Truthy(configured) ==>
      StartsWith(r, "/api/") && EndsWith(r, CleanEndpoint(endpoint)) && |r| == 5 + |CleanEndpoint(endpoint)|
    ensures Truthy(configured) ==>
      && StartsWith(r, configured.value + "/") && EndsWith(r, CleanEndpoint(endpoint))
      && |r| == |configured.value| + 1 + |CleanEndpoint(endpoint)|
  {
    var clean := CleanEndpoint(endpoint);
    if !Truthy(configured) then "/api/" + clean else configured.value + "/" + clean
  }

  /** Writing an endpoint with or without its leading slash gives the same URL. */
  lemma ApiUrlIgnoresLeadingSlash(configured: Option<string>, endpoint: string)
    requires !StartsWith(endpoint, "/")
    ensures GetApiUrl(configured, "/" + endpoint) == GetApiUrl(configured, endpoint)
  {
    assert ("/" + endpoint)[1..] == endpoint;
  }

  /** Only one slash is dropped: a doubled slash survives as one. */
  lemma ApiUrlDropsOneSlashOnly(configured: Option<string>, endpoint: string)
    ensures GetApiUrl(configured, "//" + endpoint) == GetApiUrl(configured, "") + "/" + endpoint
  {
    assert ("//" + endpoint)[1..] == "/" + endpoint;
  }

  /**
   * getUploadUrl: "" for a missing or empty path; a path starting with
   * "http" as it is; any other path made root-relative with one leading slash.
   */
  function GetUploadUrl(path: Option<string>): (r: string)
    ensures !Truthy(path) ==> r == ""
    ensures Truthy(path) && StartsWith(path.value, "http") ==> r == path.value
    ensures Truthy(path) && StartsWith(path.value, "/") ==> r == path.value
    ensures Truthy(path) ==> (StartsWith(r, "http") || StartsWith(r, "/")) && EndsWith(r, path.value)
    ensures Truthy(path) && !StartsWith(path.value, "http") && !StartsWith(path.value, "/") ==> r == "/" + path.value
    ensures Truthy(path) && !StartsWith(path.value, "http") ==> |r| <= |path.value| + 1
  {
    if !Truthy(path) then ""
    else if StartsWith(path.value, "http") then path.value
    else if StartsWith(path.value, "/") then path.value
    else "/" + path.value
  }

  /** Applying getUploadUrl to its own result changes nothing. */
  lemma UploadUrlIdempotent(path: Option<string>)
    ensures GetUploadUrl(Some(GetUploadUrl(path))) == GetUploadUrl(path)
  {
    if Truthy(path) && !StartsWith(path.value, "http") && !StartsWith(path.value, "/") {
      assert StartsWith("/" + path.value, "/");
      assert !StartsWith("/" + path.value, "http");
    }
  }
}
