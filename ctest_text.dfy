/** The two CMake commands both discovery paths write for one test case: minitest.cpp's
    `discover_test_case` (into the CTest file it is given) and the standalone
    `minitest_discover_tests` tool (into `<stem>_ctest_tests_<guid>.cmake`). Each test is
    registered with CTest as a run of the target with the internal run-nth directive. */
module CTestText {
  import opened MinitestH

  /** `add_test([====[name]====] "exe" --minitest-pri-impl-run-nth-test-case "index")`:
      the name goes into a CMake bracket argument, so it may hold quotes and spaces. */
  function AddTestLine(name: string, exe: string, index: string): string
  {
    "add_test([====[" + name + "]====] \"" + exe + "\" " + FlagPriImplRunNthTestCase + " \"" + index + "\")"
  }

  /** `set_tests_properties([====[name]====] PROPERTIES _BACKTRACE_TRIPLES "backtrace;minitest_discover_tests")`,
      where `backtrace` is `file;line`. */
  function SetTestPropertiesLine(name: string, backtrace: string): string
  {
    "set_tests_properties([====[" + name + "]====] PROPERTIES _BACKTRACE_TRIPLES \""
      + backtrace + ";minitest_discover_tests\")"
  }
}
