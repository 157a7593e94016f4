/** The body preview shown in a marker's tooltip. */
module BodyPreview {
  import opened Wrappers

  const PreviewLimit: nat := 200
  const Ellipsis: char := '\U{2026}'

  /** `s.replace(/\n/g, ' ')`: every line feed becomes a space, nothing else
      changes. */
  function FlattenLines(s: string): (r: string)
    ensures |r| == |s|
    ensures forall i :: 0 <= i < |s| ==> r[i] == (if s[i] == '\n' then ' ' else s[i])
    ensures '\n' !in r
  {
    if s == [] then []
    else [if s[0] == '\n' then ' ' else s[0]] + FlattenLines(s[1..])
  }

  /** `e.body ? e.body.replace(/\n/g, ' ').slice(0, 200) + (e.body.length > 200 ? "…" : "") : ""`.
      A missing or empty body gives "". Otherwise the first 200 characters
      with line feeds turned into spaces, followed by one ellipsis exactly
      when the body is longer than 200. */
  function Preview(body: Option<string>): (p: string)
    ensures body.None? || body.value == "" ==> p == ""
    ensures body.Some? && |body.value| <= PreviewLimit ==> |p| == |body.value|
    ensures body.Some? && |body.value| > PreviewLimit ==> |p| == PreviewLimit + 1 && p[PreviewLimit] == Ellipsis
    ensures body.Some? ==> forall i :: 0 <= i < |p| && i < PreviewLimit ==>
              i < |body.value| && p[i] == (if body.value[i] == '\n' then ' ' else body.value[i])
    ensures '\n' !in p
  {
    match body
    case None => ""
    case Some(b) =>
      if b == "" then ""
      else
        var flat := FlattenLines(b);
        var cut := if |flat| <= PreviewLimit then flat else flat[..PreviewLimit];
        cut + (if |b| > PreviewLimit then [Ellipsis] else [])
  }
}
