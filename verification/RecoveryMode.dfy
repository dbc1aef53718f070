/** Which checkpoints a restart may use: the newest, or only recovery-verified ones. */
module RecoveryMode {
  datatype Mode = LatestGemini | RecoveryVerified
}
