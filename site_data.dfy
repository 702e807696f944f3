/**
 * The parts of the site's constant content that its logic reads: the
 * ids and tags of the project cards, and the list of highlight images.
 */
module SiteData {

  /** A project card: the id its link targets and its ordered tags (title, text and icon left out). */
  datatype ProjectCard = ProjectCard(id: string, tags: seq<string>)

  const ProjectCards: seq<ProjectCard> := [
    ProjectCard("reality-hack", ["Node.js", "OpenAI", "AWS S3", "Prisma"]),
    ProjectCard("content-monitor", ["Python", "Cron", "Diff Algorithm", "BeautifulSoup"]),
    ProjectCard("xr-optimization", ["Unity", "Profiling", "Latency-free"]),
    ProjectCard("pymark", ["Python", "TDD", "Pytest"]),
    ProjectCard("autobass", ["Bash", "Rsync", "Linux"]),
    ProjectCard("securesbu", ["React", "TypeScript", "NeuralSeek", "Teams API"])
  ]

  const HighlightImages: seq<string> := [
    "/mit-reality-hack-2026-1.jpg",
    "/mit-reality-hack-2026-2.jpg",
    "/mit-reality-hack-2026-3.jpg",
    "/mit-reality-hack-2026-4.jpg"
  ]
}
