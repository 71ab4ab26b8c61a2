/** `ucfwp_get_template_part_slug`: the template-part slug for an optional
    subdirectory of the theme's template-parts directory. The directory
    itself (`UCFWP_THEME_TEMPLATE_PARTS_PATH`) is a parameter. */
module TemplateParts {
  import opened PhpRuntime

  /** The parts path followed by the subpath; a '/' goes between them only
      when the subpath is truthy, so "0" is appended with no slash. */
  function TemplatePartSlug(partsPath: string, subpath: string): (slug: string)
    ensures |partsPath| <= |slug| && slug[..|partsPath|] == partsPath
    ensures (slug == partsPath) == (subpath == "")
    ensures subpath == "0" ==> slug == partsPath + "0"
    ensures TruthyString(subpath) ==>
      |slug| == |partsPath| + 1 + |subpath| && slug[|partsPath|] == '/' && slug[|partsPath| + 1..] == subpath
  {
    if TruthyString(subpath) then partsPath + "/" + subpath else partsPath + subpath
  }

  /** Reads the subpath back out of a slug built on `partsPath`: whatever
      follows the path, less a leading '/'. */
  function SubpathOf(partsPath: string, slug: string): string
    requires |partsPath| <= |slug|
  {
    if |slug| > |partsPath| && slug[|partsPath|] == '/' then slug[|partsPath| + 1..] else slug[|partsPath|..]
  }

  /** Every subpath, truthy or not, comes back out of its slug. */
  lemma SlugRoundTrip(partsPath: string, subpath: string)
    ensures SubpathOf(partsPath, TemplatePartSlug(partsPath, subpath)) == subpath
  {
    var slug := TemplatePartSlug(partsPath, subpath);
    if !TruthyString(subpath) {
      assert slug[|partsPath|..] == subpath;
      assert subpath == "0" ==> slug[|partsPath|] == '0';
    }
  }

  /** Distinct subpaths give distinct slugs. */
  lemma SlugInjective(partsPath: string, s: string, t: string)
    requires TemplatePartSlug(partsPath, s) == TemplatePartSlug(partsPath, t)
    ensures s == t
  {
    SlugRoundTrip(partsPath, s);
    SlugRoundTrip(partsPath, t);
  }
}
