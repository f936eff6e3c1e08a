/** How long fixes run and how often they are attempted, in seconds. */
module FixTimes {
  const FIX_WINDOW := 3600   // the same for both kinds of fix
  const OCF_AUTOFIX_INTERVAL := 600
  const OCF_AUTOFIX_MAXIMUM := FIX_WINDOW
  const OCF_CHANFIX_DELAY := 30
  const OCF_CHANFIX_INTERVAL := 300
  const OCF_CHANFIX_MAXIMUM := FIX_WINDOW
}
