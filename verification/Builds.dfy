/** How a build is called: by its number, or by the first of its commit. */
module Builds {
  import opened Options

  function BuildLabel(number: Option<string>, commit: string): string {
    if number.Some? && number.value != "" then number.value
    else if |commit| > 8 then commit[..8] else commit
  }
}
