/** Tokens kept free for the answer (pr_agent/algo/pr_processing.py). */
module TokenThresholds {
  const SOFT_THRESHOLD := 1500
  const HARD_THRESHOLD := 1000
}
